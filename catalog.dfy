/** The static game catalog of the draft client: four factions, six
    battlegroups each, battlegroup ids of the form `faction::name`, the
    lookup table by id and the default map pool. */
module Catalog {
  import opened Wrappers
  import opened Js

  /** How many battlegroups a player confirms (`MAX_BATTLEGROUP_SELECTION`,
      also `MAX_PICK_SELECTION`). */
  const MaxPickSelection: nat := 3
  /** How many battlegroups each player may ban (`MAX_BAN_PER_PLAYER`). */
  const MaxBanPerPlayer: nat := 1

  datatype Faction = Faction(id: string, name: string, battlegroups: seq<string>)

  datatype Battlegroup = Battlegroup(id: string, name: string, factionId: string,
                                     factionName: string, labelText: string)

  const Factions: seq<Faction> := [
    Faction("영국", "영국군", ["인도 포병 전투단", "영국 중기갑 전투단", "영국 공군 및 해군 전투단",
                            "오스트레일리아 수비 전투단", "캐나다 충격군 전투단", "폴란드 기병 전투단"]),
    Faction("미국", "미군", ["중화기 전투단", "공수 전투단", "기갑 전투단",
                          "특수 작전 전투단", "고급 보병 전투단", "이탈리아 파르티잔 전투단"]),
    Faction("국방", "국방군", ["루프트바페 전투단", "기계화 전투단", "전선 돌파 전투단",
                            "이탈리아 해안 전투단", "공포 전투단", "최후의 저항 전투단"]),
    Faction("아프리카", "아프리카 군단", ["이탈리아 보병 전투단", "이탈리아 제병협동 전투단", "기갑 지원 전투단",
                                   "전장 첩보 전투단", "기갑엽병 지휘부 전투단", "크릭스마리네 전투단"])
  ]

  const DefaultMapPool: seq<string> := [
    "단장의 골목", "두 해변", "랑그로", "볼로냐", "빌라 피오레", "세무아", "숲속 교차로",
    "앙고빌 농장", "자발 오솔길", "정원", "타란토 해안", "토스카나 포도밭", "튀니지로 가는 길",
    "파치노 교착점", "페몽빌"
  ]

  function MakeBattlegroup(f: Faction, name: string): (b: Battlegroup)
    ensures b.id == f.id + "::" + name && b.name == name && b.factionId == f.id
  {
    Battlegroup(f.id + "::" + name, name, f.id, f.name, f.name + " · " + name)
  }

  function BattlegroupsOf(f: Faction): (bs: seq<Battlegroup>)
    ensures |bs| == |f.battlegroups|
    ensures forall i :: 0 <= i < |bs| ==> bs[i] == MakeBattlegroup(f, f.battlegroups[i])
  {
    seq(|f.battlegroups|, i requires 0 <= i < |f.battlegroups| => MakeBattlegroup(f, f.battlegroups[i]))
  }

  /** `FACTIONS.flatMap(...)`, in catalog order. */
  function Flatten(fs: seq<Faction>): seq<Battlegroup> {
    if fs == [] then [] else BattlegroupsOf(fs[0]) + Flatten(fs[1..])
  }

  /** `ALL_BATTLEGROUPS` */
  function AllBattlegroups(): seq<Battlegroup> {
    Flatten(Factions)
  }

  lemma {:induction false} FlattenLength(fs: seq<Faction>)
    requires forall k :: 0 <= k < |fs| ==> |fs[k].battlegroups| == 6
    ensures |Flatten(fs)| == 6 * |fs|
  {
    if fs != [] {
      FlattenLength(fs[1..]);
    }
  }

  lemma {:induction false} FlattenIndex(fs: seq<Faction>, i: nat)
    requires forall k :: 0 <= k < |fs| ==> |fs[k].battlegroups| == 6
    requires i < 6 * |fs|
    ensures |Flatten(fs)| == 6 * |fs|
    ensures Flatten(fs)[i] == BattlegroupsOf(fs[i / 6])[i % 6]
  {
    if i < 6 {
      FlattenLength(fs[1..]);
    } else {
      FlattenIndex(fs[1..], i - 6);
    }
  }

  lemma CancelPrefix(p: string, x: string, y: string)
    requires p + x == p + y
    ensures x == y
  {
    assert x == (p + x)[|p|..];
  }

  lemma NamesDistinct(f: nat)
    requires f < |Factions|
    ensures forall a, b :: 0 <= a < b < |Factions[f].battlegroups| ==>
                             Factions[f].battlegroups[a] != Factions[f].battlegroups[b]
  {
  }

  /** The catalog holds 24 battlegroups, six per faction, with pairwise
      distinct ids; so the id map loses no entry. */
  lemma CatalogShape()
    ensures |AllBattlegroups()| == 24
    ensures forall i, j :: 0 <= i < j < |AllBattlegroups()| ==> AllBattlegroups()[i].id != AllBattlegroups()[j].id
    ensures forall i :: 0 <= i < |AllBattlegroups()| ==> AllBattlegroups()[i].factionId == Factions[i / 6].id
  {
    var all := AllBattlegroups();
    FlattenLength(Factions);
    forall i | 0 <= i < 24
      ensures all[i].factionId == Factions[i / 6].id
    {
      FlattenIndex(Factions, i);
    }
    forall i, j | 0 <= i < j < 24
      ensures all[i].id != all[j].id
    {
      FlattenIndex(Factions, i);
      FlattenIndex(Factions, j);
      var fi, fj := Factions[i / 6], Factions[j / 6];
      if i / 6 == j / 6 {
        NamesDistinct(i / 6);
        if all[i].id == all[j].id {
          CancelPrefix(fi.id + "::", fi.battlegroups[i % 6], fi.battlegroups[j % 6]);
        }
      } else {
        assert all[i].id[0] == fi.id[0];
        assert all[j].id[0] == fj.id[0];
      }
    }
  }

  /** `BATTLEGROUP_MAP.get(id)`: keys are strings, so any other value misses. */
  function Lookup(id: JsValue): (r: Option<Battlegroup>)
    ensures r.Some? ==> id == Str(r.value.id) && r.value in AllBattlegroups()
    ensures r.None? <==> forall b :: b in AllBattlegroups() ==> id != Str(b.id)
  {
    if id.Str? then FindById(AllBattlegroups(), id.s) else None
  }

  function FindById(bs: seq<Battlegroup>, id: string): (r: Option<Battlegroup>)
    ensures r.Some? ==> r.value in bs && r.value.id == id
    ensures r.None? <==> forall b :: b in bs ==> b.id != id
  {
    if bs == [] then None
    else if bs[0].id == id then Some(bs[0])
    else FindById(bs[1..], id)
  }

  predicate IsKnown(id: JsValue) {
    Lookup(id).Some?
  }

  /** Every catalog entry is found under its own id. */
  lemma LookupOwnId(i: nat)
    requires i < |AllBattlegroups()|
    ensures Lookup(Str(AllBattlegroups()[i].id)) == Some(AllBattlegroups()[i])
  {
    CatalogShape();
    var all := AllBattlegroups();
    var found := Lookup(Str(all[i].id)).value;
    var j :| 0 <= j < |all| && all[j] == found;
    assert j == i;
  }

  /** `getBattlegroupsByFaction(factionId)`: the catalog entries of that
      faction, in catalog order. */
  function BattlegroupsByFaction(factionId: string): (r: seq<Battlegroup>)
    ensures forall b :: b in r <==> b in AllBattlegroups() && b.factionId == factionId
  {
    Filter(AllBattlegroups(), factionId)
  }

  function Filter(bs: seq<Battlegroup>, factionId: string): (r: seq<Battlegroup>)
    ensures forall b :: b in r <==> b in bs && b.factionId == factionId
    ensures |r| <= |bs|
  {
    if bs == [] then []
    else if bs[0].factionId == factionId then [bs[0]] + Filter(bs[1..], factionId)
    else Filter(bs[1..], factionId)
  }

  /** Each faction offers exactly its six battlegroups. */
  lemma SixPerFaction(f: nat)
    requires f < |Factions|
    ensures BattlegroupsByFaction(Factions[f].id) == BattlegroupsOf(Factions[f])
  {
    assert forall a, b :: 0 <= a < b < |Factions| ==> Factions[a].id != Factions[b].id;
    FilterFlattenOwn(Factions, f);
  }

  lemma {:induction false} FilterFlattenOwn(fs: seq<Faction>, f: nat)
    requires f < |fs|
    requires forall a, b :: 0 <= a < b < |fs| ==> fs[a].id != fs[b].id
    ensures Filter(Flatten(fs), fs[f].id) == BattlegroupsOf(fs[f])
  {
    var id := fs[f].id;
    FilterConcat(BattlegroupsOf(fs[0]), Flatten(fs[1..]), id);
    FilterUniform(BattlegroupsOf(fs[0]), fs[0].id, id);
    if f == 0 {
      FilterFlattenNone(fs[1..], id);
    } else {
      FilterFlattenOwn(fs[1..], f - 1);
    }
  }

  lemma {:induction false} FilterFlattenNone(fs: seq<Faction>, id: string)
    requires forall k :: 0 <= k < |fs| ==> fs[k].id != id
    ensures Filter(Flatten(fs), id) == []
  {
    if fs != [] {
      FilterConcat(BattlegroupsOf(fs[0]), Flatten(fs[1..]), id);
      FilterUniform(BattlegroupsOf(fs[0]), fs[0].id, id);
      FilterFlattenNone(fs[1..], id);
    }
  }

  lemma {:induction false} FilterConcat(a: seq<Battlegroup>, b: seq<Battlegroup>, factionId: string)
    ensures Filter(a + b, factionId) == Filter(a, factionId) + Filter(b, factionId)
  {
    if a == [] {
      assert a + b == b;
    } else {
      assert (a + b)[1..] == a[1..] + b;
      FilterConcat(a[1..], b, factionId);
    }
  }

  lemma {:induction false} FilterUniform(bs: seq<Battlegroup>, owner: string, factionId: string)
    requires forall k :: 0 <= k < |bs| ==> bs[k].factionId == owner
    ensures Filter(bs, factionId) == if owner == factionId then bs else []
  {
    if bs != [] {
      FilterUniform(bs[1..], owner, factionId);
    }
  }

  /** `BATTLEGROUP_MAP.get(id)?.factionId || null` */
  function FactionOf(id: JsValue): (r: Option<string>)
    ensures r.Some? <==> IsKnown(id)
    ensures r.Some? ==> r.value in {"영국", "미국", "국방", "아프리카"}
  {
    match Lookup(id)
    case Some(b) =>
      CatalogShape();
      var i :| 0 <= i < |AllBattlegroups()| && AllBattlegroups()[i] == b;
      Some(b.factionId)
    case None => None
  }
}
