/** Values shared by the rental-store model: optional values, request bodies
    as parsed JSON objects, and the 24-digit hexadecimal document ids. */
module Common {

  datatype Option<+T> = None | Some(value: T)

  /** One field value of a parsed JSON request body. Booleans, null, arrays
      and nested objects are all `JOther`: no rule of the core tells them apart. */
  datatype Json = JString(s: string) | JNumber(n: real) | JOther

  /** A JSON object body: field name to value. */
  type Body = map<string, Json>

  newtype byte = x: int | 0 <= x < 256

  predicate IsHexDigit(c: char) {
    '0' <= c <= '9' || 'a' <= c <= 'f' || 'A' <= c <= 'F'
  }

  /** Joi's `string().hex().length(24)`: exactly 24 hexadecimal digits, either case. */
  predicate IsObjectIdString(s: string) {
    |s| == 24 && forall i :: 0 <= i < |s| ==> IsHexDigit(s[i])
  }

  /** The value of a hexadecimal digit. */
  function HexValue(c: char): (n: int)
    requires IsHexDigit(c)
    ensures 0 <= n < 16
  {
    if c <= '9' then c as int - '0' as int
    else if c <= 'F' then c as int - 'A' as int + 10
    else c as int - 'a' as int + 10
  }

  /** The lower-case digit for a value below 16. */
  function HexDigit(n: int): (c: char)
    requires 0 <= n < 16
    ensures IsHexDigit(c) && HexValue(c) == n
    ensures !('A' <= c <= 'F')
  {
    if n < 10 then (48 + n) as char else (87 + n) as char
  }

  /** The byte that the `i`-th pair of hex digits of `s` stands for. */
  function PairValue(s: string, i: nat): int
    requires 2 * i + 1 < |s| && IsHexDigit(s[2 * i]) && IsHexDigit(s[2 * i + 1])
  {
    HexValue(s[2 * i]) * 16 + HexValue(s[2 * i + 1])
  }

  /** An ObjectId's bytes as the lower-case hex string the store uses as its
      id: each byte is the pair of digits at its own position. */
  function ToHexString(bytes: seq<byte>): (s: string)
    ensures |s| == 2 * |bytes|
    ensures forall i :: 0 <= i < |s| ==> IsHexDigit(s[i]) && !('A' <= s[i] <= 'F')
    ensures forall i :: 0 <= i < |bytes| ==> PairValue(s, i) == bytes[i] as int
  {
    if bytes == [] then []
    else
      var rest := ToHexString(bytes[1..]);
      var s := [HexDigit(bytes[0] as int / 16), HexDigit(bytes[0] as int % 16)] + rest;
      assert forall i :: 1 <= i < |bytes| ==> PairValue(s, i) == PairValue(rest, i - 1);
      s
  }

  /** Every 12-byte ObjectId, written out, is a well-formed id string. */
  lemma ObjectIdHexIsValid(bytes: seq<byte>)
    requires |bytes| == 12
    ensures IsObjectIdString(ToHexString(bytes))
  {
  }

  function LowerHexDigit(c: char): (d: char)
    ensures IsHexDigit(c) ==> IsHexDigit(d) && HexValue(d) == HexValue(c) && !('A' <= d <= 'F')
    ensures !IsHexDigit(c) ==> d == c
  {
    if 'A' <= c <= 'F' then (c as int + 32) as char else c
  }

  /** The id a hex string denotes once cast to an ObjectId: the store compares
      ids by value, so `"AB…"` and `"ab…"` name the same document. */
  function Canonical(s: string): (t: string)
    ensures |t| == |s|
    ensures forall i :: 0 <= i < |s| ==> t[i] == LowerHexDigit(s[i])
  {
    if s == [] then [] else [LowerHexDigit(s[0])] + Canonical(s[1..])
  }

  /** Casting keeps an id well formed, and an id that is already lower-case is its own canonical form. */
  lemma {:induction false} CanonicalOfLowerHex(s: string)
    requires forall i :: 0 <= i < |s| ==> IsHexDigit(s[i]) && !('A' <= s[i] <= 'F')
    ensures Canonical(s) == s
  {
    if s != [] {
      CanonicalOfLowerHex(s[1..]);
    }
  }

  lemma CanonicalIsObjectId(s: string)
    requires IsObjectIdString(s)
    ensures IsObjectIdString(Canonical(s))
  {
  }
}
