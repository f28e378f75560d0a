/**
 The pagination cursor: "<nanoseconds>:<id>" in unpadded base64url (RFC 4648, section 5).
 Bytes are characters below 256.
 */
module Cursor {
  import opened Common

  const MIN_INT64: int := -0x8000_0000_0000_0000
  const MAX_INT64: int := 0x7FFF_FFFF_FFFF_FFFF

  predicate IsInt64(n: int) {
    MIN_INT64 <= n <= MAX_INT64
  }

  // ---------- decimal numbers

  predicate IsDigit(c: char) {
    '0' <= c <= '9'
  }

  function DigitOf(d: int): char
    requires 0 <= d < 10
  {
    ('0' as int + d) as char
  }

  function PrintNat(n: nat): (s: string)
    ensures s != "" && forall c | c in s :: IsDigit(c)
  {
    if n < 10 then [DigitOf(n)] else PrintNat(n / 10) + [DigitOf(n % 10)]
  }

  function PrintInt(n: int): string {
    if n < 0 then "-" + PrintNat(-n) else PrintNat(n)
  }

  function ParseDigits(s: string): Option<int> {
    if s == "" then Some(0)
    else
      var last := s[|s| - 1];
      match ParseDigits(s[..|s| - 1])
      case Some(n) => if IsDigit(last) then Some(n * 10 + (last as int - '0' as int)) else None
      case None => None
  }

  /** `strconv.ParseInt` in base 10 with 64 bits: an optional sign, at least one digit, in range. */
  function ParseInt(s: string): (v: Option<int>)
    ensures v.Some? ==> -9_223_372_036_854_775_808 <= v.value <= 9_223_372_036_854_775_807
  {
    var negative := s != "" && s[0] == '-';
    var digits := if s != "" && (s[0] == '-' || s[0] == '+') then s[1..] else s;
    if digits == "" then None
    else match ParseDigits(digits)
      case None => None
      case Some(n) => var v := if negative then -n else n; if IsInt64(v) then Some(v) else None
  }

  lemma {:induction false} ParsePrintNat(n: nat)
    ensures ParseDigits(PrintNat(n)) == Some(n)
  {
    if n < 10 {
      assert PrintNat(n)[..0] == "";
    } else {
      ParsePrintNat(n / 10);
      var s := PrintNat(n);
      assert s[..|s| - 1] == PrintNat(n / 10);
    }
  }

  lemma ParsePrintInt(n: int)
    requires -9_223_372_036_854_775_808 <= n <= 9_223_372_036_854_775_807
    ensures ParseInt(PrintInt(n)) == Some(n)
  {
    ParsePrintNat(if n < 0 then -n else n);
    var s := PrintInt(n);
    if n < 0 {
      assert s[1..] == PrintNat(-n);
    } else {
      assert s[0] in s && IsDigit(s[0]);
    }
  }

  // ---------- base64url without padding

  /** The six-bit alphabet. */
  function Sextet(v: int): (c: char)
    requires 0 <= v < 64
  {
    if v < 26 then ('A' as int + v) as char
    else if v < 52 then ('a' as int + v - 26) as char
    else if v < 62 then ('0' as int + v - 52) as char
    else if v == 62 then '-' else '_'
  }

  function SextetValue(c: char): (v: Option<int>)
    ensures v.Some? ==> 0 <= v.value < 64
  {
    if 'A' <= c <= 'Z' then Some(c as int - 'A' as int)
    else if 'a' <= c <= 'z' then Some(c as int - 'a' as int + 26)
    else if '0' <= c <= '9' then Some(c as int - '0' as int + 52)
    else if c == '-' then Some(62)
    else if c == '_' then Some(63)
    else None
  }

  lemma SextetRoundTrip(v: int)
    requires 0 <= v < 64
    ensures SextetValue(Sextet(v)) == Some(v) && Sextet(v) != '\n' && Sextet(v) != '\r'
  {
  }

  predicate IsBytes(b: string) {
    forall c | c in b :: c as int < 256
  }

  predicate AreSextets(v: seq<int>) {
    forall i | 0 <= i < |v| :: 0 <= v[i] < 64
  }

  predicate IsByte(x: int) {
    0 <= x < 256
  }

  function Two(x: int): (v: seq<int>)
    requires IsByte(x)
    ensures AreSextets(v)
  {
    [x / 4, x % 4 * 16]
  }

  function Three(x: int, y: int): (v: seq<int>)
    requires IsByte(x) && IsByte(y)
    ensures AreSextets(v)
  {
    [x / 4, x % 4 * 16 + y / 16, y % 16 * 4]
  }

  function Four(x: int, y: int, z: int): (v: seq<int>)
    requires IsByte(x) && IsByte(y) && IsByte(z)
    ensures AreSextets(v)
  {
    [x / 4, x % 4 * 16 + y / 16, y % 16 * 4 + z / 64, z % 64]
  }

  /** The sextets are the bits of the bytes in order, the last one filled up with zeros. */
  lemma BitsInOrder(x: int, y: int, z: int)
    requires IsByte(x) && IsByte(y) && IsByte(z)
    ensures var v := Two(x); |v| == 2 && v[0] * 64 + v[1] == x * 16
    ensures var v := Three(x, y); |v| == 3 && (v[0] * 64 + v[1]) * 64 + v[2] == (x * 256 + y) * 4
    ensures var v := Four(x, y, z);
            |v| == 4 && ((v[0] * 64 + v[1]) * 64 + v[2]) * 64 + v[3] == (x * 256 + y) * 256 + z
  {
  }

  /** Three bytes become four sextets; one or two left-over bytes become two or three. */
  function Split(b: string): (v: seq<int>)
    requires IsBytes(b)
    ensures AreSextets(v)
  {
    if b == "" then []
    else
      BytesAt(b);
      if |b| == 1 then Two(b[0] as int)
      else if |b| == 2 then Three(b[0] as int, b[1] as int)
      else Four(b[0] as int, b[1] as int, b[2] as int) + Split(b[3..])
  }

  lemma BytesAt(b: string)
    requires IsBytes(b)
    ensures forall i | 0 <= i < |b| :: IsByte(b[i] as int)
    ensures |b| >= 3 ==> IsBytes(b[3..])
  {
    assert forall i | 0 <= i < |b| :: b[i] in b;
    assert |b| >= 3 ==> forall c | c in b[3..] :: c in b;
  }

  function Spell(v: seq<int>): string
    requires AreSextets(v)
  {
    seq(|v|, i requires 0 <= i < |v| => Sextet(v[i]))
  }

  function Encode(b: string): string
    requires IsBytes(b)
  {
    Spell(Split(b))
  }

  /** The values of the characters, line breaks skipped; None at any other character. */
  function Sextets(s: string): Option<seq<int>> {
    if s == "" then Some([])
    else if s[0] == '\n' || s[0] == '\r' then Sextets(s[1..])
    else match SextetValue(s[0])
      case None => None
      case Some(v) => match Sextets(s[1..])
        case None => None
        case Some(rest) => Some([v] + rest)
  }

  function FirstByte(v: seq<int>): char
    requires AreSextets(v) && |v| >= 2
  {
    (v[0] * 4 + v[1] / 16) as char
  }

  function SecondByte(v: seq<int>): char
    requires AreSextets(v) && |v| >= 3
  {
    (v[1] % 16 * 16 + v[2] / 4) as char
  }

  function ThirdByte(v: seq<int>): char
    requires AreSextets(v) && |v| >= 4
  {
    (v[2] % 4 * 64 + v[3]) as char
  }

  /** Groups of four; a last group of two or three gives one or two bytes, its left-over bits ignored. */
  function Join(v: seq<int>): Option<string>
    requires AreSextets(v)
  {
    if v == [] then Some("")
    else if |v| == 1 then None
    else
      var x := FirstByte(v);
      if |v| == 2 then Some([x])
      else
        var y := SecondByte(v);
        if |v| == 3 then Some([x, y])
        else
          var z := ThirdByte(v);
          match Join(v[4..])
          case None => None
          case Some(rest) => Some([x, y, z] + rest)
  }

  lemma {:induction false} SextetsInRange(s: string)
    ensures Sextets(s).Some? ==> AreSextets(Sextets(s).value)
  {
    if s != "" {
      SextetsInRange(s[1..]);
    }
  }

  function Decode(s: string): Option<string> {
    match Sextets(s)
    case None => None
    case Some(v) => SextetsInRange(s); Join(v)
  }

  lemma {:induction false} SextetsOfSpell(v: seq<int>)
    requires AreSextets(v)
    ensures Sextets(Spell(v)) == Some(v)
  {
    if v == [] {
      assert Spell(v) == "";
    } else {
      assert v == [v[0]] + v[1..];
      SextetRoundTrip(v[0]);
      assert Spell(v)[1..] == Spell(v[1..]);
      SextetsOfSpell(v[1..]);
    }
  }

  lemma JoinTwo(x: int)
    requires IsByte(x)
    ensures Join(Two(x)) == Some([x as char])
  {
    Group(x, 0, 0);
    assert FirstByte(Two(x)) == x as char;
  }

  lemma JoinThree(x: int, y: int)
    requires IsByte(x) && IsByte(y)
    ensures Join(Three(x, y)) == Some([x as char, y as char])
  {
    var v := Three(x, y);
    assert |v| == 3 && FirstByte(v) == x as char && SecondByte(v) == y as char by {
      Group(x, y, 0);
    }
    hide Three, FirstByte, SecondByte;
  }

  lemma JoinFour(x: int, y: int, z: int, rest: seq<int>)
    requires IsByte(x) && IsByte(y) && IsByte(z) && AreSextets(rest)
    ensures Join(Four(x, y, z) + rest)
         == match Join(rest)
            case None => None
            case Some(r) => Some([x as char, y as char, z as char] + r)
  {
    var v := Four(x, y, z) + rest;
    assert |Four(x, y, z)| == 4
           && FirstByte(v) == x as char && SecondByte(v) == y as char && ThirdByte(v) == z as char by {
      Group(x, y, z);
    }
    hide Four, FirstByte, SecondByte, ThirdByte;
    assert v[4..] == rest;
  }

  lemma {:induction false} JoinSplit(b: string)
    requires IsBytes(b)
    ensures Join(Split(b)) == Some(b)
    decreases |b|
  {
    hide Two, Three, Four;
    if b != "" {
      BytesAt(b);
      if |b| == 1 {
        JoinTwo(b[0] as int);
        assert b == [b[0]];
      } else if |b| == 2 {
        JoinThree(b[0] as int, b[1] as int);
        assert b == [b[0], b[1]];
      } else {
        JoinSplit(b[3..]);
        JoinFour(b[0] as int, b[1] as int, b[2] as int, Split(b[3..]));
        assert b == [b[0], b[1], b[2]] + b[3..];
      }
    }
  }

  /** Decoding gives back every byte string. */
  lemma DecodeEncode(b: string)
    requires IsBytes(b)
    ensures Decode(Encode(b)) == Some(b)
  {
    SextetsOfSpell(Split(b));
    JoinSplit(b);
  }

  lemma {:induction false} BreakSkipped(a: string, c: char, b: string)
    requires c == '\n' || c == '\r'
    ensures Sextets(a + [c] + b) == Sextets(a + b)
  {
    if a == "" {
      assert a + [c] + b == [c] + b && ([c] + b)[1..] == b && a + b == b;
    } else {
      BreakSkipped(a[1..], c, b);
      assert (a + [c] + b)[1..] == a[1..] + [c] + b && (a + b)[1..] == a[1..] + b;
    }
  }

  /** A line break anywhere in the text makes no difference. */
  lemma LineBreaksAreSkipped(a: string, c: char, b: string)
    requires c == '\n' || c == '\r'
    ensures Decode(a + [c] + b) == Decode(a + b)
  {
    BreakSkipped(a, c, b);
    hide Sextets;
  }

  /** Three bytes survive the split into four sextets. */
  lemma Group(x: int, y: int, z: int)
    requires 0 <= x < 256 && 0 <= y < 256 && 0 <= z < 256
    ensures var p, q := x % 4 * 16 + y / 16, y % 16 * 4 + z / 64;
            && 0 <= p < 64 && 0 <= q < 64
            && x / 4 * 4 + p / 16 == x && p % 16 * 16 + q / 4 == y && q % 4 * 64 + z % 64 == z
  {
  }

  // ---------- the cursor

  datatype Position = Position(at: int, id: int)

  function FirstColon(s: string): (i: nat)
    ensures i <= |s| && (i < |s| ==> s[i] == ':') && forall k | 0 <= k < i :: s[k] != ':'
  {
    if s == "" || s[0] == ':' then 0
    else
      var i := FirstColon(s[1..]) + 1;
      assert forall k | 0 < k < i :: s[k] == s[1..][k - 1];
      i
  }

  function EncodeCursor(p: Position): string
    requires p.id > 0
  {
    var raw := PrintInt(p.at) + ":" + PrintInt(p.id);
    RawIsBytes(p);
    Encode(raw)
  }

  lemma RawIsBytes(p: Position)
    ensures IsBytes(PrintInt(p.at) + ":" + PrintInt(p.id))
    ensures forall c | c in PrintInt(p.at) :: c != ':'
  {
  }

  function DecodeCursor(cursor: string): (p: Option<Position>)
    ensures p.Some? ==> p.value.id > 0 && IsInt64(p.value.at) && IsInt64(p.value.id)
  {
    match Decode(cursor)
    case None => None
    case Some(b) =>
      var i := FirstColon(b);
      if i == |b| then None
      else match (ParseInt(b[..i]), ParseInt(b[i + 1..]))
        case (Some(at), Some(id)) => if id <= 0 then None else Some(Position(at, id))
        case _ => None
  }

  /** A cursor that was handed out is read back as the same position. */
  lemma CursorRoundTrip(p: Position)
    requires p.id > 0 && IsInt64(p.at) && IsInt64(p.id)
    ensures DecodeCursor(EncodeCursor(p)) == Some(p)
  {
    var at, id := PrintInt(p.at), PrintInt(p.id);
    var raw := at + ":" + id;
    RawIsBytes(p);
    DecodeEncode(raw);
    FirstColonAfter(at, id);
    assert raw[..|at|] == at && raw[|at| + 1..] == id;
    ParsePrintInt(p.at);
    ParsePrintInt(p.id);
  }

  lemma {:induction false} FirstColonAfter(a: string, b: string)
    requires ':' !in a
    ensures FirstColon(a + ":" + b) == |a|
  {
    if a != "" {
      assert (a + ":" + b)[1..] == a[1..] + ":" + b;
      FirstColonAfter(a[1..], b);
    }
  }

  /** Trimming a received cursor does not change it: it is not empty and holds no white space. */
  lemma EncodedIsTrim(p: Position)
    requires p.id > 0
    ensures EncodeCursor(p) != "" && TrimSpace(EncodeCursor(p)) == EncodeCursor(p)
  {
    RawIsBytes(p);
    var v := Split(PrintInt(p.at) + ":" + PrintInt(p.id));
    var s := Spell(v);
    assert s[0] == Sextet(v[0]) && s[|s| - 1] == Sextet(v[|v| - 1]);
  }
}
