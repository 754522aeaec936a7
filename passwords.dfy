/** Password storage (`server/services/passwords.js`): the `s2$<salt>$<key>`
    format `hashPassword` writes, and the dispatch of `verifyPassword`
    between that format and legacy plain-text values. Scrypt, the random
    salt and the UTF-8 encoder are parameters; `timingSafeEqual` is byte
    equality, throwing on a length mismatch as Node does. */
module Passwords {
  import opened Wrappers
  import opened Js
  import opened Strings

  newtype Byte = b: int | 0 <= b < 256

  /** `crypto.scrypt(password, salt, keylen)` */
  type Scrypt = (string, seq<Byte>, nat) -> seq<Byte>

  /** What scrypt promises: a key of the requested length. */
  ghost predicate KeyLengthsHonoured(scrypt: Scrypt) {
    forall p, s, n :: |scrypt(p, s, n)| == n
  }

  const Scheme: string := "s2"
  const SchemePrefix: string := "s2$"
  const SaltLength: nat := 16
  const KeyLength: nat := 64
  const HexDigits: string := "0123456789abcdef"
  const RangeError: string := "RangeError"

  function HexChar(d: nat): (c: char)
    requires d < 16
    ensures c == HexDigits[d] && c != '$'
  {
    HexDigits[d]
  }

  /** `Buffer#toString('hex')`: two lower-case digits per byte. */
  function Hex(bytes: seq<Byte>): (h: string)
    ensures |h| == 2 * |bytes|
    ensures '$' !in h
  {
    if bytes == [] then ""
    else [HexChar(bytes[0] as nat / 16), HexChar(bytes[0] as nat % 16)] + Hex(bytes[1..])
  }

  /** One hexadecimal digit, either case. */
  function HexValue(c: char): (v: Option<nat>)
    ensures v.Some? ==> v.value < 16
    ensures forall d :: 0 <= d < 16 && c == HexDigits[d] ==> v == Some(d)
  {
    if '0' <= c <= '9' then Some(c as nat - '0' as nat)
    else if 'a' <= c <= 'f' then Some(c as nat - 'a' as nat + 10)
    else if 'A' <= c <= 'F' then Some(c as nat - 'A' as nat + 10)
    else None
  }

  /** `Buffer.from(h, 'hex')`: digit pairs are decoded up to the first pair
      that is not two hexadecimal digits; an odd last digit is dropped. */
  function HexDecode(h: string): (bytes: seq<Byte>)
    ensures |bytes| <= |h| / 2
  {
    if |h| < 2 then []
    else
      match (HexValue(h[0]), HexValue(h[1]))
      case (Some(hi), Some(lo)) => [(hi * 16 + lo) as Byte] + HexDecode(h[2..])
      case _ => []
  }

  lemma {:induction false} HexRoundTrip(bytes: seq<Byte>)
    ensures HexDecode(Hex(bytes)) == bytes
  {
    if bytes != [] {
      var b := bytes[0] as nat;
      var h := Hex(bytes);
      assert h[2..] == Hex(bytes[1..]);
      assert HexValue(h[0]) == Some(b / 16);
      assert HexValue(h[1]) == Some(b % 16);
      HexRoundTrip(bytes[1..]);
    }
  }

  /** `hashPassword(password)` with the 16 random salt bytes given. */
  function HashPassword(password: string, salt: seq<Byte>, scrypt: Scrypt): (stored: string)
    requires |salt| == SaltLength
    ensures StartsWith(stored, SchemePrefix)
    ensures |stored| == |SchemePrefix| + 2 * SaltLength + 1 + 2 * |scrypt(password, salt, KeyLength)|
    ensures stored == Join([Scheme, Hex(salt), Hex(scrypt(password, salt, KeyLength))], "$")
  {
    var saltHex := Hex(salt);
    var keyHex := Hex(scrypt(password, salt, KeyLength));
    JoinHead([Scheme, saltHex, keyHex], "$");
    JoinHead([saltHex, keyHex], "$");
    assert (SchemePrefix + saltHex + "$" + keyHex)[..|SchemePrefix|] == SchemePrefix;
    SchemePrefix + saltHex + "$" + keyHex
  }

  /** With an honest scrypt the stored value is `s2$`, 32 salt digits, `$`
      and 128 key digits. */
  lemma HashLength(password: string, salt: seq<Byte>, scrypt: Scrypt)
    requires |salt| == SaltLength && KeyLengthsHonoured(scrypt)
    ensures |HashPassword(password, salt, scrypt)| == 3 + 32 + 1 + 128
  {
    assert |scrypt(password, salt, KeyLength)| == KeyLength;
  }

  /** `timingSafeEqual(a, b)` */
  function TimingSafeEqual(a: seq<Byte>, b: seq<Byte>): (r: Result<bool>)
    ensures r.Throws? <==> |a| != |b|
    ensures r.Ok? ==> (r.value <==> a == b)
  {
    if |a| != |b| then Throws(RangeError) else Ok(a == b)
  }

  /** `verifyPassword(password, stored)`; `utf8` is `Buffer.from(_, 'utf-8')`. */
  function VerifyPassword(password: string, stored: JsValue, scrypt: Scrypt, utf8: string -> seq<Byte>)
    : (r: Result<bool>)
    ensures !(stored.Str? && stored.s != "") ==> r == Ok(false)
    ensures stored.Str? && stored.s != "" && !StartsWith(stored.s, SchemePrefix) ==>
      r == Ok(utf8(password) == utf8(stored.s))
    ensures stored.Str? && StartsWith(stored.s, SchemePrefix) ==>
      var parts := Split(stored.s, '$');
      (|parts| < 3 || parts[1] == "" || parts[2] == "" ==> r == Ok(false))
      && (|parts| >= 3 && parts[1] != "" && parts[2] != "" ==>
            r == TimingSafeEqual(HexDecode(parts[2]),
                                 scrypt(password, HexDecode(parts[1]), |HexDecode(parts[2])|)))
  {
    if !Truthy(stored) || !stored.Str? then Ok(false)
    else if !StartsWith(stored.s, SchemePrefix) then
      var provided := utf8(password);
      var legacy := utf8(stored.s);
      if |provided| != |legacy| then Ok(false)
      else TimingSafeEqual(provided, legacy)
    else
      var parts := Split(stored.s, '$');
      var saltHex := if |parts| > 1 then parts[1] else "";
      var hashHex := if |parts| > 2 then parts[2] else "";
      if saltHex == "" || hashHex == "" then Ok(false)
      else
        var salt := HexDecode(saltHex);
        var expected := HexDecode(hashHex);
        var actual := scrypt(password, salt, |expected|);
        TimingSafeEqual(expected, actual)
  }

  /** A password verifies against its own hash whenever scrypt is
      deterministic and honours the key length: the key length read back is
      the one written. */
  lemma VerifyOwnHash(password: string, salt: seq<Byte>, scrypt: Scrypt, utf8: string -> seq<Byte>)
    requires |salt| == SaltLength && KeyLengthsHonoured(scrypt)
    ensures VerifyPassword(password, Str(HashPassword(password, salt, scrypt)), scrypt, utf8) == Ok(true)
  {
    var key := scrypt(password, salt, KeyLength);
    SplitStored(Hex(salt), Hex(key));
    HexRoundTrip(salt);
    HexRoundTrip(key);
    assert |key| == KeyLength;
  }

  /** A stored value in the scheme splits at `$` into the scheme, the salt
      digits and the key digits. */
  lemma SplitStored(saltHex: string, keyHex: string)
    requires '$' !in saltHex && '$' !in keyHex
    ensures var stored := SchemePrefix + saltHex + "$" + keyHex;
      StartsWith(stored, SchemePrefix) && Split(stored, '$') == [Scheme, saltHex, keyHex]
  {
    var parts := [Scheme, saltHex, keyHex];
    var stored := SchemePrefix + saltHex + "$" + keyHex;
    JoinHead(parts, "$");
    JoinHead(parts[1..], "$");
    assert parts[1..][1..] == [keyHex];
    assert Join(parts, "$") == stored;
    SplitJoin(parts, '$');
    assert stored[..|SchemePrefix|] == SchemePrefix;
  }

  /** A legacy value verifies exactly the passwords with the same UTF-8
      bytes; an injective encoder makes that the stored text itself. */
  lemma LegacyIsExactMatch(password: string, stored: string, scrypt: Scrypt, utf8: string -> seq<Byte>)
    requires stored != "" && !StartsWith(stored, SchemePrefix)
    requires forall a, b :: utf8(a) == utf8(b) ==> a == b
    ensures VerifyPassword(password, Str(stored), scrypt, utf8) == Ok(password == stored)
  {
  }

  /** A scheme value whose key segment decodes to no bytes asks scrypt for
      an empty key, and every password then verifies. */
  lemma EmptyKeyVerifiesAnything(password: string, saltHex: string, hashHex: string, scrypt: Scrypt, utf8: string -> seq<Byte>)
    requires saltHex != "" && hashHex != "" && '$' !in saltHex && '$' !in hashHex
    requires HexDecode(hashHex) == [] && KeyLengthsHonoured(scrypt)
    ensures VerifyPassword(password, Str(SchemePrefix + saltHex + "$" + hashHex), scrypt, utf8) == Ok(true)
  {
    SplitStored(saltHex, hashHex);
    assert |scrypt(password, HexDecode(saltHex), 0)| == 0;
  }
}
