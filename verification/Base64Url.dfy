/**
 The base64url codec of apps/admin/src/lib/webauthn.js.

 `btoa` is base64 with padding (section 4 of RFC 4648); `atob` is the browser's forgiving
 decoder, which skips ASCII white space, drops up to two trailing '=' of a full quantum and
 ignores spare bits.
 */
module Base64Url {
  import opened Prelude

  newtype byte = x: int | 0 <= x < 256

  /** A character of a binary string. */
  type octet = c: char | c as int < 256 witness 'A'

  type digit = c: char | InAlphabet(c) witness 'A'

  /** What base64UrlToBuffer accepts: null or undefined, an ArrayBuffer, or anything made a string. */
  datatype Value = Absent | Buffer(bytes: seq<byte>) | Text(text: string)

  // ----- The alphabet

  predicate InAlphabet(c: char) {
    'A' <= c <= 'Z' || 'a' <= c <= 'z' || '0' <= c <= '9' || c == '+' || c == '/'
  }

  /** The alphabet of section 5 of RFC 4648, without '='. */
  predicate UrlSafe(c: char) {
    'A' <= c <= 'Z' || 'a' <= c <= 'z' || '0' <= c <= '9' || c == '-' || c == '_'
  }

  function Digit(v: nat): (d: digit)
    requires v < 64
    ensures Worth(d) == v
  {
    if v < 26 then ('A' as int + v) as char
    else if v < 52 then ('a' as int + v - 26) as char
    else if v < 62 then ('0' as int + v - 52) as char
    else if v == 62 then '+' else '/'
  }

  function Worth(d: digit): (v: nat)
    ensures v < 64
  {
    if 'A' <= d <= 'Z' then d as int - 'A' as int
    else if 'a' <= d <= 'z' then d as int - 'a' as int + 26
    else if '0' <= d <= '9' then d as int - '0' as int + 52
    else if d == '+' then 62 else 63
  }

  lemma DigitOfWorth(d: digit)
    ensures Digit(Worth(d)) == d
  {
  }

  // ----- Regrouping three octets as four digits and back

  function First(a: octet): digit {
    Digit(a as int / 4)
  }

  function Second(a: octet, b: nat): digit
    requires b < 256
  {
    Digit(a as int % 4 * 16 + b / 16)
  }

  function Third(b: octet, c: nat): digit
    requires c < 256
  {
    Digit(b as int % 16 * 4 + c / 64)
  }

  function Fourth(c: octet): digit {
    Digit(c as int % 64)
  }

  function High(p: digit, q: digit): octet {
    (Worth(p) * 4 + Worth(q) / 16) as char
  }

  function Middle(q: digit, r: digit): octet {
    (Worth(q) % 16 * 16 + Worth(r) / 4) as char
  }

  function Low(r: digit, s: digit): octet {
    (Worth(r) % 4 * 64 + Worth(s)) as char
  }

  /** The octets that three octets' digits stand for, as numbers. */
  lemma OctetsJoin(a: nat, b: nat, c: nat)
    requires a < 256 && b < 256 && c < 256
    ensures && a / 4 * 4 + (a % 4 * 16 + b / 16) / 16 == a
            && (a % 4 * 16 + b / 16) % 16 * 16 + (b % 16 * 4 + c / 64) / 4 == b
            && (b % 16 * 4 + c / 64) % 4 * 64 + c % 64 == c
  {
    assert (a % 4 * 16 + b / 16) / 16 == a % 4 && (a % 4 * 16 + b / 16) % 16 == b / 16;
    assert (b % 16 * 4 + c / 64) / 4 == b % 16 && (b % 16 * 4 + c / 64) % 4 == c / 64;
  }

  lemma OctetsSplit(p: nat, q: nat, r: nat, s: nat)
    requires p < 64 && q < 64 && r < 64 && s < 64
    ensures (p * 4 + q / 16) / 4 == p
    ensures (p * 4 + q / 16) % 4 * 16 + (q % 16 * 16 + r / 4) / 16 == q
    ensures (q % 16 * 16 + r / 4) % 16 * 4 + (r % 4 * 64 + s) / 64 == r
    ensures (r % 4 * 64 + s) % 64 == s
  {
    assert (p * 4 + q / 16) % 4 == q / 16 && (q % 16 * 16 + r / 4) / 16 == q % 16;
    assert (q % 16 * 16 + r / 4) % 16 == r / 4 && (r % 4 * 64 + s) / 64 == r % 4;
  }

  lemma SpareSplit(p: nat, q: nat, r: nat)
    requires p < 64 && q < 64 && r < 64
    ensures q % 16 == 0 ==> (p * 4 + q / 16) % 4 * 16 + 0 / 16 == q
    ensures r % 4 == 0 ==> (q % 16 * 16 + r / 4) % 16 * 4 + 0 / 64 == r
  {
    assert (p * 4 + q / 16) % 4 == q / 16;
    assert (q % 16 * 16 + r / 4) % 16 == r / 4;
  }

  lemma OctetsOfDigits(a: octet, b: octet, c: octet)
    ensures High(First(a), Second(a, b as int)) == a
    ensures Middle(Second(a, b as int), Third(b, c as int)) == b
    ensures Low(Third(b, c as int), Fourth(c)) == c
  {
    hide Digit, Worth;
    OctetsJoin(a as int, b as int, c as int);
  }

  lemma SpareBitsOfOne(a: octet)
    ensures High(First(a), Second(a, 0)) == a && Worth(Second(a, 0)) % 16 == 0
  {
    hide Digit, Worth;
  }

  lemma SpareBitsOfTwo(a: octet, b: octet)
    ensures Middle(Second(a, b as int), Third(b, 0)) == b && Worth(Third(b, 0)) % 4 == 0
  {
    hide Digit, Worth;
    var v := b as int;
    assert (a as int % 4 * 16 + v / 16) % 16 == v / 16;
    assert v / 16 * 16 + v % 16 * 4 / 4 == v;
  }

  lemma DigitsOfOctets(p: digit, q: digit, r: digit, s: digit)
    ensures First(High(p, q)) == p
    ensures Second(High(p, q), Middle(q, r) as int) == q
    ensures Third(Middle(q, r), Low(r, s) as int) == r
    ensures Fourth(Low(r, s)) == s
    ensures Worth(q) % 16 == 0 ==> Second(High(p, q), 0) == q
    ensures Worth(r) % 4 == 0 ==> Third(Middle(q, r), 0) == r
  {
    DigitOfWorth(p);
    DigitOfWorth(q);
    DigitOfWorth(r);
    DigitOfWorth(s);
    hide Digit, Worth;
    OctetsSplit(Worth(p), Worth(q), Worth(r), Worth(s));
    SpareDigits(p, q, r);
  }

  lemma SpareDigits(p: digit, q: digit, r: digit)
    ensures Worth(q) % 16 == 0 ==> Second(High(p, q), 0) == q
    ensures Worth(r) % 4 == 0 ==> Third(Middle(q, r), 0) == r
  {
    DigitOfWorth(q);
    DigitOfWorth(r);
    hide Digit, Worth;
    SpareSplit(Worth(p), Worth(q), Worth(r));
  }

  // ----- The browser's btoa and atob

  function Btoa(s: seq<octet>): string {
    if s == [] then []
    else if |s| == 1 then [First(s[0]), Second(s[0], 0), '=', '=']
    else if |s| == 2 then [First(s[0]), Second(s[0], s[1] as int), Third(s[1], 0), '=']
    else [First(s[0]), Second(s[0], s[1] as int), Third(s[1], s[2] as int), Fourth(s[2])] + Btoa(s[3..])
  }

  /** ASCII white space, which `atob` skips. */
  predicate IsSpace(c: char) {
    c == '\t' || c == '\n' || c as int == 12 || c == '\r' || c == ' '
  }

  function WithoutSpace(s: string): string {
    if s == [] then [] else (if IsSpace(s[0]) then [] else [s[0]]) + WithoutSpace(s[1..])
  }

  function Unpad(s: string): string {
    if |s| % 4 != 0 || s == [] || s[|s| - 1] != '=' then s
    else if s[|s| - 2] != '=' then s[..|s| - 1]
    else s[..|s| - 2]
  }

  function Atob(s: string): Option<seq<octet>> {
    var t := Unpad(WithoutSpace(s));
    if |t| % 4 != 1 && forall c :: c in t ==> InAlphabet(c) then Some(Octets(t)) else None
  }

  /** Four digits give three octets; a last pair gives one and a last triple two, spare bits dropped. */
  function Octets(t: seq<digit>): seq<octet> {
    if |t| < 2 then []
    else if |t| == 2 then [High(t[0], t[1])]
    else if |t| == 3 then [High(t[0], t[1]), Middle(t[1], t[2])]
    else [High(t[0], t[1]), Middle(t[1], t[2]), Low(t[2], t[3])] + Octets(t[4..])
  }

  // ----- The codec

  function ReplaceAll(s: string, from: char, to: char): (r: string)
    ensures |r| == |s| && forall i :: 0 <= i < |s| ==> r[i] == if s[i] == from then to else s[i]
  {
    if s == [] then [] else [if s[0] == from then to else s[0]] + ReplaceAll(s[1..], from, to)
  }

  /** `replace(/=+$/, '')` */
  function StripPadding(s: string): string {
    if s != [] && s[|s| - 1] == '=' then StripPadding(s[..|s| - 1]) else s
  }

  function Repeat(c: char, n: nat): string {
    seq(n, i => c)
  }

  function FromCharCodes(b: seq<byte>): seq<octet> {
    seq(|b|, i requires 0 <= i < |b| => b[i] as char)
  }

  function CharCodes(s: seq<octet>): seq<byte> {
    seq(|s|, i requires 0 <= i < |s| => s[i] as int as byte)
  }

  function Encoded(b: seq<byte>): string {
    StripPadding(ReplaceAll(ReplaceAll(Btoa(FromCharCodes(b)), '+', '-'), '/', '_'))
  }

  function Normalized(s: string): string {
    ReplaceAll(ReplaceAll(s, '-', '+'), '_', '/')
  }

  function Padded(s: string): string {
    if |s| % 4 == 0 then s else s + Repeat('=', 4 - |s| % 4)
  }

  /** `utf8` is the browser's TextEncoder: a text that is not base64 becomes its own bytes. */
  function Decoded(utf8: string -> seq<byte>, s: string): seq<byte> {
    match Atob(Padded(Normalized(s)))
    case Some(binary) => CharCodes(binary)
    case None => utf8(s)
  }

  // ----- Base64 without padding

  function Digits(s: seq<octet>): seq<digit> {
    if s == [] then []
    else if |s| == 1 then [First(s[0]), Second(s[0], 0)]
    else if |s| == 2 then [First(s[0]), Second(s[0], s[1] as int), Third(s[1], 0)]
    else [First(s[0]), Second(s[0], s[1] as int), Third(s[1], s[2] as int), Fourth(s[2])] + Digits(s[3..])
  }

  /** Digits that some octets have: no single digit left over, and the spare bits are zero. */
  predicate Canonical(t: seq<digit>) {
    if |t| > 3 then Canonical(t[4..])
    else if |t| == 3 then Worth(t[2]) % 4 == 0
    else if |t| == 2 then Worth(t[1]) % 16 == 0
    else t == []
  }

  lemma {:induction false} CanonicalLength(t: seq<digit>)
    requires Canonical(t)
    ensures |t| % 4 != 1
  {
    if |t| > 3 {
      CanonicalLength(t[4..]);
    }
  }

  lemma PrependQuantum(p: digit, q: digit, r: digit, s: digit, rest: seq<digit>)
    ensures Octets([p, q, r, s] + rest) == [High(p, q), Middle(q, r), Low(r, s)] + Octets(rest)
  {
    hide Worth, High, Middle, Low, InAlphabet;
    var t: seq<digit> := [p, q, r, s] + rest;
    assert t[4..] == rest && |t| > 3;
  }

  lemma PrependCanonical(p: digit, q: digit, r: digit, s: digit, rest: seq<digit>)
    ensures Canonical([p, q, r, s] + rest) <==> Canonical(rest)
  {
    hide Worth, InAlphabet;
    assert ([p, q, r, s] + rest)[4..] == rest;
  }

  lemma PrependOctets(a: octet, b: octet, c: octet, rest: seq<octet>)
    ensures Digits([a, b, c] + rest) == [First(a), Second(a, b as int), Third(b, c as int), Fourth(c)] + Digits(rest)
  {
    hide First, Second, Third, Fourth;
    assert ([a, b, c] + rest)[3..] == rest;
  }

  lemma {:induction false} DigitsRoundTrip(s: seq<octet>)
    ensures Canonical(Digits(s)) && Octets(Digits(s)) == s
  {
    if |s| > 2 {
      DigitsRoundTrip(s[3..]);
      DigitsRoundTripStep(s[0], s[1], s[2], s[3..]);
      assert s == [s[0], s[1], s[2]] + s[3..];
    } else if |s| == 2 {
      OctetsOfDigits(s[0], s[1], s[0]);
      SpareBitsOfTwo(s[0], s[1]);
      hide First, Second, Third, Fourth, High, Middle, Low, Worth, InAlphabet;
    } else if |s| == 1 {
      SpareBitsOfOne(s[0]);
      hide First, Second, Third, Fourth, High, Middle, Low, Worth, InAlphabet;
    }
  }

  lemma DigitsRoundTripStep(a: octet, b: octet, c: octet, rest: seq<octet>)
    requires Canonical(Digits(rest)) && Octets(Digits(rest)) == rest
    ensures Canonical(Digits([a, b, c] + rest)) && Octets(Digits([a, b, c] + rest)) == [a, b, c] + rest
  {
    OctetsOfDigits(a, b, c);
    PrependOctets(a, b, c, rest);
    hide First, Second, Third, Fourth, High, Middle, Low, Worth, InAlphabet, Digits;
    PrependCanonical(First(a), Second(a, b as int), Third(b, c as int), Fourth(c), Digits(rest));
    PrependQuantum(First(a), Second(a, b as int), Third(b, c as int), Fourth(c), Digits(rest));
  }

  /** Canonical digits are the digits of the octets they stand for. */
  lemma {:induction false} OctetsRoundTrip(t: seq<digit>)
    requires Canonical(t)
    ensures Digits(Octets(t)) == t
  {
    if |t| > 3 {
      hide First, Second, Third, Fourth, High, Middle, Low, Worth, InAlphabet, Digits, Octets;
      assert t == [t[0], t[1], t[2], t[3]] + t[4..];
      OctetsRoundTrip(t[4..]);
      OctetsRoundTripStep(t[0], t[1], t[2], t[3], t[4..]);
    } else if |t| == 3 {
      hide Digits, Octets, InAlphabet;
      assert t == [t[0], t[1], t[2]];
      OctetsRoundTripOfThree(t[0], t[1], t[2]);
    } else if |t| == 2 {
      hide Digits, Octets, InAlphabet;
      assert t == [t[0], t[1]];
      OctetsRoundTripOfTwo(t[0], t[1]);
    }
  }

  lemma OctetsRoundTripOfTwo(p: digit, q: digit)
    requires Worth(q) % 16 == 0
    ensures Digits(Octets([p, q])) == [p, q]
  {
    DigitsOfOctets(p, q, q, q);
    hide First, Second, High, Worth, InAlphabet;
    assert Octets([p, q]) == [High(p, q)];
  }

  lemma OctetsRoundTripOfThree(p: digit, q: digit, r: digit)
    requires Worth(r) % 4 == 0
    ensures Digits(Octets([p, q, r])) == [p, q, r]
  {
    DigitsOfOctets(p, q, r, r);
    hide First, Second, Third, High, Middle, Worth, InAlphabet;
    assert Octets([p, q, r]) == [High(p, q), Middle(q, r)];
  }

  lemma OctetsRoundTripStep(p: digit, q: digit, r: digit, s: digit, rest: seq<digit>)
    requires Digits(Octets(rest)) == rest
    ensures Digits(Octets([p, q, r, s] + rest)) == [p, q, r, s] + rest
  {
    hide Digits, Octets, InAlphabet, Worth;
    PrependQuantum(p, q, r, s, rest);
    PrependOctets(High(p, q), Middle(q, r), Low(r, s), Octets(rest));
    DigitsOfOctets(p, q, r, s);
    hide First, Second, Third, Fourth, High, Middle, Low;
  }

  // ----- Padding and the two alphabets

  lemma {:induction false} BtoaPads(s: seq<octet>)
    ensures Btoa(s) == Padded(Digits(s))
  {
    hide First, Second, Third, Fourth, InAlphabet;
    if |s| > 2 {
      BtoaPads(s[3..]);
      var quantum := [First(s[0]), Second(s[0], s[1] as int), Third(s[1], s[2] as int), Fourth(s[2])];
      PadQuantum(quantum, Digits(s[3..]));
      assert Btoa(s) == quantum + Btoa(s[3..]) && Digits(s) == quantum + Digits(s[3..]);
    }
  }

  lemma PadQuantum(quantum: string, rest: string)
    requires |quantum| == 4
    ensures Padded(quantum + rest) == quantum + Padded(rest)
  {
    assert |quantum + rest| % 4 == |rest| % 4;
  }

  function UrlForm(s: string): string {
    ReplaceAll(ReplaceAll(s, '+', '-'), '/', '_')
  }

  lemma {:induction false} StripsAll(s: string, n: nat)
    requires forall c :: c in s ==> c != '='
    ensures StripPadding(s + Repeat('=', n)) == s
  {
    if n == 0 {
      assert s + Repeat('=', 0) == s;
      assert s != [] ==> s[|s| - 1] in s;
    } else {
      StripsAll(s, n - 1);
      assert (s + Repeat('=', n))[..|s| + n - 1] == s + Repeat('=', n - 1);
    }
  }

  /** The text is the digits in the URL alphabet, with nothing after them. */
  lemma EncodedIs(b: seq<byte>)
    ensures Encoded(b) == UrlForm(Digits(FromCharCodes(b)))
  {
    var t := Digits(FromCharCodes(b));
    BtoaPads(FromCharCodes(b));
    var n := if |t| % 4 == 0 then 0 else 4 - |t| % 4;
    assert Padded(t) == t + Repeat('=', n);
    DigitsHaveNoMarks(t);
    StripsAll(UrlForm(t), n);
    assert UrlForm(t + Repeat('=', n)) == UrlForm(t) + Repeat('=', n);
  }

  lemma DigitsHaveNoMarks(t: seq<digit>)
    ensures forall c :: c in UrlForm(t) ==> UrlSafe(c) && c != '='
    ensures Normalized(UrlForm(t)) == t
  {
    forall i | 0 <= i < |t|
      ensures UrlSafe(UrlForm(t)[i]) && UrlForm(t)[i] != '=' && Normalized(UrlForm(t))[i] == t[i]
    {
      assert InAlphabet(t[i]);
    }
  }

  lemma {:induction false} NoSpaceStays(s: string)
    requires forall i :: 0 <= i < |s| ==> !IsSpace(s[i])
    ensures WithoutSpace(s) == s
  {
    if s != [] {
      NoSpaceStays(s[1..]);
    }
  }

  lemma {:induction false} WithoutSpaceAppend(a: string, b: string)
    ensures WithoutSpace(a + b) == WithoutSpace(a) + WithoutSpace(b)
  {
    if a == [] {
      assert a + b == b;
    } else {
      assert (a + b)[0] == a[0] && (a + b)[1..] == a[1..] + b;
      WithoutSpaceAppend(a[1..], b);
    }
  }

  lemma SpaceIsSkipped(a: string, c: char, b: string)
    requires c in {'\t', '\n', '\r', ' ', 12 as char}
    ensures WithoutSpace(a + [c] + b) == WithoutSpace(a + b)
  {
    WithoutSpaceAppend(a + [c], b);
    WithoutSpaceAppend(a, [c]);
    WithoutSpaceAppend(a, b);
    assert WithoutSpace([c]) == [] by {
      assert IsSpace(c) && [c][1..] == [];
    }
    hide WithoutSpace;
    assert WithoutSpace(a) + [] == WithoutSpace(a);
  }

  lemma ShortTexts(d: digit)
    ensures Atob([d]) == None && Atob([d, d]) == Some([High(d, d)]) && Atob("-_") == None
  {
    hide High, Worth;
    NoSpaceStays([d]);
    NoSpaceStays([d, d]);
    NoSpaceStays("-_");
    assert '-' in "-_";
  }

  /** White space anywhere does not count, a single digit left over is refused, and so is any character outside the alphabet. */
  lemma AtobForgives(a: string, c: char, b: string, d: digit)
    requires c in {'\t', '\n', '\r', ' ', 12 as char}
    ensures Atob(a + [c] + b) == Atob(a + b)
    ensures Atob([d]) == None && Atob([d, d]) == Some([High(d, d)]) && Atob("-_") == None
  {
    hide WithoutSpace, Unpad, InAlphabet, Octets, High, Worth;
    SpaceIsSkipped(a, c, b);
    ShortTexts(d);
  }

  /** The browser decodes padded digits to their octets. */
  lemma AtobOfDigits(t: seq<digit>)
    requires |t| % 4 != 1
    ensures Atob(Padded(t)) == Some(Octets(t))
  {
    var p := Padded(t);
    forall i | 0 <= i < |p|
      ensures !IsSpace(p[i])
    {
      assert i < |t| ==> InAlphabet(t[i]);
    }
    NoSpaceStays(p);
    assert t != [] ==> InAlphabet(t[|t| - 1]) && t[|t| - 1] != '=';
    UnpadPadded(t);
  }

  lemma UnpadPadded(t: string)
    requires |t| % 4 != 1 && (t != [] ==> t[|t| - 1] != '=')
    ensures Unpad(Padded(t)) == t
  {
    var p := Padded(t);
    if |t| % 4 != 0 {
      var n := 4 - |t| % 4;
      assert p == t + Repeat('=', n) && |p| == |t| + n && |p| % 4 == 0;
      assert p[..|t|] == t && p[|p| - 1] == '=';
    }
  }

  // ----- The codec is a bijection between byte strings and canonical texts

  /** No character of the text is one that a URL gives a meaning to. */
  lemma EncodedIsUrlSafe(b: seq<byte>)
    ensures forall c :: c in Encoded(b) ==> UrlSafe(c) && c !in {'+', '/', '='}
  {
    EncodedIs(b);
    DigitsHaveNoMarks(Digits(FromCharCodes(b)));
  }

  lemma QuantumIs(a: octet, b: octet, c: octet)
    ensures Btoa([a, b, c]) == [First(a), Second(a, b as int), Third(b, c as int), Fourth(c)]
    ensures Btoa([a, b]) == [First(a), Second(a, b as int), Third(b, 0), '='] && Btoa([a]) == [First(a), Second(a, 0), '=', '=']
  {
    hide First, Second, Third, Fourth;
    assert [a, b, c][3..] == [];
  }

  lemma FooDigits()
    ensures First('f') == 'Z' && Second('f', 'o' as int) == 'm' && Third('o', 'o' as int) == '9' && Fourth('o') == 'v'
    ensures Second('f', 0) == 'g' && Third('o', 0) == '8'
    ensures First('b') == 'Y' && Second('b', 'a' as int) == 'm' && Third('a', 'r' as int) == 'F' && Fourth('r') == 'y'
  {
  }

  /** The vectors of section 10 of RFC 4648, and one whose digits the two alphabets write differently. */
  lemma TestVectors()
    ensures Btoa("f") == "Zg==" && Btoa("fo") == "Zm8=" && Btoa("foo") == "Zm9v" && Btoa("foobar") == "Zm9vYmFy"
    ensures UrlForm(Btoa([255 as char, 255 as char, 190 as char])) == "__--"
  {
    hide First, Second, Third, Fourth;
    FooDigits();
    QuantumIs('f', 'o', 'o');
    QuantumIs('b', 'a', 'r');
    assert ['f'] == "f" && ['f', 'o'] == "fo" && ['f', 'o', 'o'] == "foo" && ['b', 'a', 'r'] == "bar";
    assert "foobar"[3..] == "bar";
    MarkDigits();
    QuantumIs(255 as char, 255 as char, 190 as char);
  }

  lemma MarkDigits()
    ensures First(255 as char) == '/' && Second(255 as char, 255) == '/' && Third(255 as char, 190) == '+' && Fourth(190 as char) == '+'
  {
  }

  /** Every byte string comes back; the padding rebuilt from the length is the one btoa wrote. */
  lemma RoundTrip(utf8: string -> seq<byte>, b: seq<byte>)
    ensures Decoded(utf8, Encoded(b)) == b
    ensures Padded(Normalized(Encoded(b))) == Btoa(FromCharCodes(b))
  {
    var t := Digits(FromCharCodes(b));
    EncodedIs(b);
    DigitsHaveNoMarks(t);
    BtoaPads(FromCharCodes(b));
    DigitsRoundTrip(FromCharCodes(b));
    CanonicalLength(t);
    AtobOfDigits(t);
    hide Encoded, Normalized, Padded, Atob, Digits, Octets, UrlForm;
    assert CharCodes(FromCharCodes(b)) == b;
  }

  /** Texts in the URL alphabet whose length and spare bits some byte string produces. */
  ghost predicate CanonicalText(s: string) {
    (forall i :: 0 <= i < |s| ==> UrlSafe(s[i])) && IsDigits(Normalized(s)) && Canonical(Normalized(s))
  }

  ghost predicate IsDigits(s: string) {
    forall c :: c in s ==> InAlphabet(c)
  }

  lemma EncodedIsCanonical(b: seq<byte>)
    ensures CanonicalText(Encoded(b))
  {
    var t := Digits(FromCharCodes(b));
    EncodedIs(b);
    DigitsHaveNoMarks(t);
    DigitsRoundTrip(FromCharCodes(b));
  }

  /** Encoding what a text decodes to gives the text back exactly when the text is canonical. */
  lemma TextComesBackExactly(utf8: string -> seq<byte>, s: string)
    ensures Encoded(Decoded(utf8, s)) == s <==> CanonicalText(s)
  {
    EncodedIsCanonical(Decoded(utf8, s));
    if CanonicalText(s) {
      CanonicalComesBack(utf8, s);
    }
  }

  lemma CanonicalComesBack(utf8: string -> seq<byte>, s: string)
    requires CanonicalText(s)
    ensures Encoded(Decoded(utf8, s)) == s
  {
    var t: seq<digit> := Normalized(s);
    assert Canonical(t);
    CanonicalLength(t);
    AtobOfDigits(t);
    assert Decoded(utf8, s) == CharCodes(Octets(t));
    assert FromCharCodes(CharCodes(Octets(t))) == Octets(t);
    UrlFormComesBack(s);
    hide *;
    EncodedIs(CharCodes(Octets(t)));
    OctetsRoundTrip(t);
  }

  lemma UrlFormComesBack(s: string)
    requires forall i :: 0 <= i < |s| ==> UrlSafe(s[i])
    ensures UrlForm(Normalized(s)) == s
  {
  }

  // ----- The two functions

  method BufferToBase64Url(buffer: Option<seq<byte>>) returns (text: Option<string>)
    ensures text == match buffer case None => None case Some(bytes) => Some(Encoded(bytes))
  {
    if buffer.None? {
      return None;
    }
    var bytes := buffer.value;
    var binary: seq<octet> := [];
    for i := 0 to |bytes|
      invariant |binary| == i && forall k :: 0 <= k < i ==> binary[k] == bytes[k] as char
    {
      binary := binary + [bytes[i] as char];
    }
    assert binary == FromCharCodes(bytes);
    text := Some(StripPadding(ReplaceAll(ReplaceAll(Btoa(binary), '+', '-'), '/', '_')));
  }

  method Base64UrlToBuffer(utf8: string -> seq<byte>, value: Value) returns (buffer: Option<seq<byte>>)
    ensures buffer == match value case Absent => None case Buffer(bytes) => Some(bytes) case Text(s) => Some(Decoded(utf8, s))
  {
    match value
    case Absent => return None;
    case Buffer(bytes) => return Some(bytes);
    case Text(s) =>
      var normalized := ReplaceAll(ReplaceAll(s, '-', '+'), '_', '/');
      var remainder := |normalized| % 4;
      var padded := if remainder == 0 then normalized else normalized + Repeat('=', 4 - remainder);
      var decoded := Atob(padded);
      if decoded.None? {
        return Some(utf8(s));
      }
      var binary := decoded.value;
      var bytes := new byte[|binary|];
      for i := 0 to |binary|
        invariant forall k :: 0 <= k < i ==> bytes[k] == binary[k] as int as byte
      {
        bytes[i] := binary[i] as int as byte;
      }
      assert bytes[..] == CharCodes(binary);
      return Some(bytes[..]);
  }
}
