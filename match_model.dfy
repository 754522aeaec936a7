/** The records of the draft client after normalisation: users,
    tournaments, matches, players and per-player selections, with the six
    match phases. Fields that keep a raw JSON value (`readyAt`, `map`, ...)
    stay `JsValue`s; the fields the code coerces are typed. */
module MatchModel {
  import opened Wrappers
  import opened Js

  datatype Phase = Waiting | ReadyCheck | MapSelected | Banning | Picking | Locked

  function PhaseName(p: Phase): string {
    match p
    case Waiting => "waiting"
    case ReadyCheck => "ready-check"
    case MapSelected => "map-selected"
    case Banning => "banning"
    case Picking => "picking"
    case Locked => "locked"
  }

  /** `['waiting', ..., 'locked'].includes(v)`, and which one it is. */
  function ParsePhase(v: JsValue): (r: Option<Phase>)
    ensures r.Some? ==> v == Str(PhaseName(r.value))
    ensures r.None? ==> forall p: Phase :: v != Str(PhaseName(p))
  {
    if v == Str("waiting") then Some(Waiting)
    else if v == Str("ready-check") then Some(ReadyCheck)
    else if v == Str("map-selected") then Some(MapSelected)
    else if v == Str("banning") then Some(Banning)
    else if v == Str("picking") then Some(Picking)
    else if v == Str("locked") then Some(Locked)
    else None
  }

  lemma ParsePhaseName(p: Phase)
    ensures ParsePhase(Str(PhaseName(p))) == Some(p)
  {
  }

  /** `describePhase`: the Korean label shown for a phase value. */
  function DescribePhase(v: JsValue): (text: string)
    ensures ParsePhase(v).None? ==> text == "진행 중"
  {
    match ParsePhase(v)
    case Some(Waiting) => "대기"
    case Some(ReadyCheck) => "준비 확인"
    case Some(MapSelected) => "맵 확정"
    case Some(Banning) => "밴 진행 중"
    case Some(Picking) => "픽 진행 중"
    case Some(Locked) => "확정됨"
    case None => "진행 중"
  }

  /** The six phases get six different labels, none of them the fallback. */
  lemma DescribePhaseDistinguishes(p: Phase, q: Phase)
    ensures DescribePhase(Str(PhaseName(p))) != "진행 중"
    ensures p != q ==> DescribePhase(Str(PhaseName(p))) != DescribePhase(Str(PhaseName(q)))
  {
  }

  datatype Player = Player(accountId: string, displayName: JsValue, ready: bool, readyAt: JsValue)

  /** A player's faction choice and battlegroup picks. `battlegroups` may
      hold falsy holes between an edit and the next repair. */
  datatype Selection = Selection(faction: JsValue, battlegroups: seq<JsValue>,
                                 confirmed: bool, confirmedAt: JsValue)

  const DefaultSelection: Selection := Selection(Null, [], false, Null)

  /** A match as normalizeMatch leaves it. `selections` and `bans` hold the
      players' entries; the stored entries under account ids that are not
      players (a player replaced since, say) are carried along as read, in
      `otherSelections` and `otherBans`. */
  datatype Match = Match(
    id: JsValue,
    round: JsValue,
    scheduled: JsValue,
    players: seq<Player>,
    mapName: JsValue,
    mapDecidedAt: JsValue,
    phase: Phase,
    selections: map<string, Selection>,
    bans: map<string, seq<JsValue>>,
    otherSelections: map<string, JsValue>,
    otherBans: map<string, JsValue>)

  datatype TournamentStatus = Scheduled | Live | Completed

  function StatusName(s: TournamentStatus): string {
    match s
    case Scheduled => "scheduled"
    case Live => "live"
    case Completed => "completed"
  }

  /** `['scheduled', 'live', 'completed'].includes(v)`, and which one it is. */
  function ParseStatus(v: JsValue): (r: Option<TournamentStatus>)
    ensures r.Some? ==> v == Str(StatusName(r.value))
    ensures r.None? ==> forall s: TournamentStatus :: v != Str(StatusName(s))
  {
    if v == Str("scheduled") then Some(Scheduled)
    else if v == Str("live") then Some(Live)
    else if v == Str("completed") then Some(Completed)
    else None
  }

  datatype StreamLinks = StreamLinks(withgo: JsValue, soop: JsValue)

  datatype Tournament = Tournament(
    id: JsValue,
    name: JsValue,
    startTime: JsValue,
    status: TournamentStatus,
    result: JsValue,
    streamLinks: StreamLinks,
    mapPool: seq<JsValue>,
    matches: seq<Match>)

  datatype Role = PlayerRole | ViewerRole | AdminRole

  function RoleName(r: Role): string {
    match r
    case PlayerRole => "player"
    case ViewerRole => "viewer"
    case AdminRole => "admin"
  }

  /** `['player', 'viewer', 'admin'].includes(v)`, and which one it is. */
  function ParseRole(v: JsValue): (r: Option<Role>)
    ensures r.Some? ==> v == Str(RoleName(r.value))
    ensures r.None? ==> forall x: Role :: v != Str(RoleName(x))
  {
    if v == Str("player") then Some(PlayerRole)
    else if v == Str("viewer") then Some(ViewerRole)
    else if v == Str("admin") then Some(AdminRole)
    else None
  }

  datatype User = User(accountId: string, displayName: JsValue, role: Role, password: JsValue,
                       email: JsValue, rank: JsValue, seed: bool)

  /** The account ids of a match's players. */
  function PlayerIds(ps: seq<Player>): (ids: set<string>)
    ensures forall i :: 0 <= i < |ps| ==> ps[i].accountId in ids
    ensures forall a :: a in ids ==> exists i :: 0 <= i < |ps| && ps[i].accountId == a
  {
    set i | 0 <= i < |ps| :: ps[i].accountId
  }

  predicate IsPlayer(m: Match, accountId: string) {
    exists i :: 0 <= i < |m.players| && m.players[i].accountId == accountId
  }

  /** The JSON object a match is stored and sent as. */
  function EncodeMatch(m: Match): JsValue {
    Obj(map[
      "id" := m.id,
      "round" := m.round,
      "scheduled" := m.scheduled,
      "players" := Arr(seq(|m.players|, i requires 0 <= i < |m.players| => EncodePlayer(m.players[i]))),
      "map" := m.mapName,
      "mapDecidedAt" := m.mapDecidedAt,
      "phase" := Str(PhaseName(m.phase)),
      "selections" := Obj(SelectionsObject(m)),
      "bans" := Obj(BansObject(m))
    ])
  }

  /** The stored `selections` object: the carried entries, with the
      players' entries over them. */
  function SelectionsObject(m: Match): map<string, JsValue> {
    m.otherSelections + map a | a in m.selections :: EncodeSelection(m.selections[a])
  }

  function BansObject(m: Match): map<string, JsValue> {
    m.otherBans + map a | a in m.bans :: Arr(m.bans[a])
  }

  function EncodePlayer(p: Player): JsValue {
    Obj(map["accountId" := Str(p.accountId), "displayName" := p.displayName,
            "ready" := Bool(p.ready), "readyAt" := p.readyAt])
  }

  function EncodeSelection(s: Selection): JsValue {
    Obj(map["faction" := s.faction, "battlegroups" := Arr(s.battlegroups),
            "confirmed" := Bool(s.confirmed), "confirmedAt" := s.confirmedAt])
  }

  function EncodeUser(u: User): JsValue {
    Obj(map["accountId" := Str(u.accountId), "displayName" := u.displayName,
            "role" := Str(RoleName(u.role)), "password" := u.password, "email" := u.email,
            "rank" := u.rank, "seed" := Bool(u.seed)])
  }

  /** The JSON object a tournament is stored and sent as. */
  function EncodeTournament(t: Tournament): JsValue {
    Obj(map[
      "id" := t.id,
      "name" := t.name,
      "startTime" := t.startTime,
      "status" := Str(StatusName(t.status)),
      "result" := t.result,
      "streamLinks" := Obj(map["withgo" := t.streamLinks.withgo, "soop" := t.streamLinks.soop]),
      "mapPool" := Arr(t.mapPool),
      "matches" := Arr(seq(|t.matches|, i requires 0 <= i < |t.matches| => EncodeMatch(t.matches[i])))
    ])
  }
}
