/** The text forms of a 128-bit identifier (section 4 of RFC 9562): thirty-two
    hexadecimal digits, or the same with four hyphens. */
module UuidText {
  import opened Base

  type Nibble = n: int | 0 <= n < 16

  predicate IsLowerHex(c: char) {
    '0' <= c <= '9' || 'a' <= c <= 'f'
  }

  /** Either case is read; lower case is written. */
  function DigitValue(c: char): Option<Nibble> {
    if '0' <= c <= '9' then Some(c as int - '0' as int)
    else if 'a' <= c <= 'f' then Some(c as int - 'a' as int + 10)
    else if 'A' <= c <= 'F' then Some(c as int - 'A' as int + 10)
    else None
  }

  function DigitText(n: Nibble): (c: char)
    ensures IsLowerHex(c) && DigitValue(c) == Some(n)
  {
    if n < 10 then (n + '0' as int) as char else (n - 10 + 'a' as int) as char
  }

  lemma DigitTextOfValue(c: char)
    requires IsLowerHex(c)
    ensures DigitValue(c).Some? && DigitText(DigitValue(c).value) == c
  {
  }

  function OctetOf(high: Nibble, low: Nibble): Octet {
    16 * high as int + low
  }

  function HexOf(octets: seq<Octet>): (s: string)
    ensures |s| == 2 * |octets|
    ensures forall i :: 0 <= i < |s| ==> IsLowerHex(s[i])
  {
    if octets == [] then ""
    else [DigitText(octets[0] / 16), DigitText(octets[0] % 16)] + HexOf(octets[1..])
  }

  function ParseHex(s: string): (r: Option<seq<Octet>>)
    ensures r.Some? ==> |s| == 2 * |r.value|
  {
    if s == "" then Some([])
    else if |s| == 1 then None
    else
      match (DigitValue(s[0]), DigitValue(s[1]), ParseHex(s[2..]))
      case (Some(high), Some(low), Some(rest)) => Some([OctetOf(high, low)] + rest)
      case _ => None
  }

  lemma {:induction false} HexRoundTrip(octets: seq<Octet>)
    ensures ParseHex(HexOf(octets)) == Some(octets)
  {
    if octets != [] {
      var high, low := octets[0] / 16, octets[0] % 16;
      HexRoundTrip(octets[1..]);
      assert HexOf(octets) == [DigitText(high), DigitText(low)] + HexOf(octets[1..]);
      assert HexOf(octets)[2..] == HexOf(octets[1..]);
      assert OctetOf(high, low) == octets[0];
      assert octets == [octets[0]] + octets[1..];
    }
  }

  /** Lower-case text is the only lower-case text of what it parses to. */
  lemma {:induction false} HexCanonical(s: string)
    requires |s| % 2 == 0 && forall i :: 0 <= i < |s| ==> IsLowerHex(s[i])
    ensures ParseHex(s).Some? && HexOf(ParseHex(s).value) == s
  {
    hide DigitValue, DigitText, IsLowerHex;
    if s != "" {
      var rest := s[2..];
      assert forall i :: 0 <= i < |rest| ==> rest[i] == s[i + 2];
      HexCanonical(rest);
      DigitTextOfValue(s[0]);
      DigitTextOfValue(s[1]);
      OctetSplits(DigitValue(s[0]).value, DigitValue(s[1]).value);
      assert s == [s[0], s[1]] + rest;
    }
  }

  lemma OctetSplits(high: Nibble, low: Nibble)
    ensures OctetOf(high, low) / 16 == high && OctetOf(high, low) % 16 == low
  {
  }

  function Simple(u: Uuid): (s: string)
    ensures |s| == 32 && forall i :: 0 <= i < |s| ==> IsLowerHex(s[i])
  {
    HexOf(u.octets)
  }

  function ParseSimple(s: string): Option<Uuid> {
    if |s| != 32 then None
    else match ParseHex(s)
         case Some(octets) => Some(Uuid(octets))
         case None => None
  }

  /** Where the i-th digit stands in the hyphenated text: groups of eight,
      four, four, four and twelve. */
  function TextIndex(i: nat): nat {
    if i < 8 then i else if i < 12 then i + 1 else if i < 16 then i + 2 else if i < 20 then i + 3 else i + 4
  }

  predicate IsHyphenAt(j: nat) {
    j == 8 || j == 13 || j == 18 || j == 23
  }

  /** Which digit stands at a place of the hyphenated text. */
  function DigitIndex(j: nat): nat
    requires !IsHyphenAt(j)
  {
    if j < 8 then j else if j < 13 then j - 1 else if j < 18 then j - 2 else if j < 23 then j - 3 else j - 4
  }

  function Hyphenate(s: string): (t: string)
    requires |s| == 32
    ensures |t| == 36
  {
    seq(36, j requires 0 <= j < 36 => if IsHyphenAt(j) then '-' else s[DigitIndex(j)])
  }

  function Dehyphenate(t: string): (s: string)
    requires |t| == 36
    ensures |s| == 32
  {
    seq(32, i requires 0 <= i < 32 => t[TextIndex(i)])
  }

  function Hyphenated(u: Uuid): (t: string)
    ensures |t| == 36
  {
    Hyphenate(Simple(u))
  }

  function ParseHyphenated(t: string): Option<Uuid> {
    if |t| != 36 || t[8] != '-' || t[13] != '-' || t[18] != '-' || t[23] != '-' then None
    else ParseSimple(Dehyphenate(t))
  }

  /** Every form that is read: bare digits, hyphenated, braced, URN. */
  function ParseUuid(s: string): Option<Uuid> {
    if |s| == 32 then ParseSimple(s)
    else if |s| == 36 then ParseHyphenated(s)
    else if |s| == 38 && s[0] == '{' && s[37] == '}' then ParseHyphenated(s[1..37])
    else if |s| == 45 && s[..9] == "urn:uuid:" then ParseHyphenated(s[9..])
    else None
  }

  lemma SimpleRoundTrip(u: Uuid)
    ensures ParseSimple(Simple(u)) == Some(u)
  {
    HexRoundTrip(u.octets);
  }

  lemma SimpleCanonical(s: string)
    requires |s| == 32 && forall i :: 0 <= i < |s| ==> IsLowerHex(s[i])
    ensures ParseSimple(s).Some? && Simple(ParseSimple(s).value) == s
  {
    HexCanonical(s);
  }

  lemma HyphenRoundTrip(s: string)
    requires |s| == 32
    ensures Dehyphenate(Hyphenate(s)) == s
    ensures var t := Hyphenate(s); t[8] == '-' && t[13] == '-' && t[18] == '-' && t[23] == '-'
    ensures forall j :: 0 <= j < 36 ==> Hyphenate(s)[j] == '-' || Hyphenate(s)[j] in s
  {
    var t := Hyphenate(s);
    forall i | 0 <= i < 32 ensures Dehyphenate(t)[i] == s[i] {
      assert !IsHyphenAt(TextIndex(i)) && DigitIndex(TextIndex(i)) == i;
    }
  }

  /** The hyphenated text prints and parses back. */
  lemma HyphenatedRoundTrip(u: Uuid)
    ensures ParseHyphenated(Hyphenated(u)) == Some(u)
    ensures forall i :: 0 <= i < 36 ==> IsLowerHex(Hyphenated(u)[i]) || Hyphenated(u)[i] == '-'
  {
    hide Hyphenate, Dehyphenate, ParseSimple;
    HyphenRoundTrip(Simple(u));
    SimpleRoundTrip(u);
  }

  /** Text over lower-case digits and hyphens that parses is the printed form
      of what it parses to. */
  lemma HyphenatedCanonical(t: string)
    requires forall i :: 0 <= i < |t| ==> IsLowerHex(t[i]) || t[i] == '-'
    requires ParseHyphenated(t).Some?
    ensures Hyphenated(ParseHyphenated(t).value) == t
  {
    var s := Dehyphenate(t);
    DigitsOfParsed(s);
    forall i | 0 <= i < 32 ensures IsLowerHex(s[i]) {
      assert s[i] in t;
      assert DigitValue(s[i]).Some?;
    }
    SimpleCanonical(s);
    forall j | 0 <= j < 36 ensures Hyphenate(s)[j] == t[j] {
      if !IsHyphenAt(j) {
        assert TextIndex(DigitIndex(j)) == j;
      }
    }
    assert Hyphenate(s) == t;
  }

  lemma {:induction false} DigitsOfParsed(s: string)
    requires ParseHex(s).Some?
    ensures forall i :: 0 <= i < |s| ==> DigitValue(s[i]).Some?
  {
    if s != "" {
      DigitsOfParsed(s[2..]);
      assert forall i :: 2 <= i < |s| ==> s[i] == s[2..][i - 2];
    }
  }

  // ── The forms, character by character ───────────────────────────────────

  const DIGITS := "0123456789abcdef"
  const UPPER := "0123456789ABCDEF"

  lemma DigitsAre(c: char, n: Nibble)
    ensures DigitText(n) == DIGITS[n]
    ensures DigitValue(c) == Some(n) <==> c == DIGITS[n] || c == UPPER[n]
  {
  }

  /** The i-th octet is digits 2i and 2i + 1, the greater half first. */
  lemma {:induction false} HexMeans(octets: seq<Octet>, i: nat)
    requires i < |octets|
    ensures HexOf(octets)[2 * i] == DIGITS[octets[i] / 16] && HexOf(octets)[2 * i + 1] == DIGITS[octets[i] % 16]
  {
    hide DigitText;
    DigitsAre('0', octets[0] / 16);
    DigitsAre('0', octets[0] % 16);
    if i > 0 {
      HexMeans(octets[1..], i - 1);
    }
  }

  /** Where the digits of the i-th octet stand between the hyphens. */
  function OctetAt(i: nat): nat {
    2 * i + if i < 4 then 0 else if i < 6 then 1 else if i < 8 then 2 else if i < 10 then 3 else 4
  }

  /** The hyphenated text: 36 characters, hyphens at 8, 13, 18 and 23, and
      between them the octets in order. */
  lemma HyphenatedMeans(u: Uuid)
    ensures var t := Hyphenated(u);
      && |t| == 36 && (forall j :: 0 <= j < 36 ==> (t[j] == '-' <==> j in {8, 13, 18, 23}))
      && forall i :: 0 <= i < 16 ==> t[OctetAt(i)] == DIGITS[u.octets[i] / 16] && t[OctetAt(i) + 1] == DIGITS[u.octets[i] % 16]
  {
    hide HexOf;
    var t := Hyphenated(u);
    assert !IsLowerHex('-');
    forall i | 0 <= i < 16
      ensures t[OctetAt(i)] == DIGITS[u.octets[i] / 16] && t[OctetAt(i) + 1] == DIGITS[u.octets[i] % 16]
    {
      HexMeans(u.octets, i);
      assert DigitIndex(OctetAt(i)) == 2 * i && DigitIndex(OctetAt(i) + 1) == 2 * i + 1;
    }
  }

  /** The same hexadecimal digit in either case, or the same other character. */
  predicate SameDigit(a: char, b: char) {
    a == b || exists n: Nibble :: b == DIGITS[n] && a == UPPER[n]
  }

  /** The same text but for the case of its hexadecimal letters. */
  predicate SameButCase(s: string, t: string) {
    |s| == |t| && forall i :: 0 <= i < |t| ==> SameDigit(s[i], t[i])
  }

  lemma DigitIsSame(c: char, n: Nibble)
    ensures DigitValue(c) == Some(n) <==> SameDigit(c, DigitText(n))
  {
    hide DigitValue, DigitText;
    DigitsAre(c, n);
    if SameDigit(c, DIGITS[n]) && c != DIGITS[n] {
      var m: Nibble :| DIGITS[n] == DIGITS[m] && c == UPPER[m];
      OneDigitOneValue(n, m);
    }
  }

  lemma OneDigitOneValue(n: Nibble, m: Nibble)
    ensures DIGITS[n] == DIGITS[m] ==> n == m
  {
  }

  /** A text reads as octets exactly when it is their text, in either case. */
  lemma {:induction false} ParseHexIff(s: string, octets: seq<Octet>)
    ensures ParseHex(s) == Some(octets) <==> SameButCase(s, HexOf(octets))
    decreases |s|
  {
    hide DigitValue, DigitText, SameDigit, ParseHex, HexOf;
    HexLengths(s, octets);
    if |s| >= 2 && octets != [] {
      ParseHexIff(s[2..], octets[1..]);
      DigitIsSame(s[0], octets[0] / 16);
      DigitIsSame(s[1], octets[0] % 16);
      HalvesAre(s, octets);
      TwoThenRest(s, HexOf(octets));
    }
  }

  lemma HexLengths(s: string, octets: seq<Octet>)
    ensures |HexOf(octets)| == 2 * |octets|
    ensures ParseHex(s) == Some(octets) ==> |s| == 2 * |octets|
    ensures s == "" && octets == [] ==> ParseHex(s) == Some(octets)
  {
  }

  lemma HalvesAre(s: string, octets: seq<Octet>)
    requires |s| >= 2 && octets != []
    ensures ParseHex(s) == Some(octets) <==>
      DigitValue(s[0]) == Some(octets[0] / 16) && DigitValue(s[1]) == Some(octets[0] % 16) && ParseHex(s[2..]) == Some(octets[1..])
    ensures HexOf(octets)[2..] == HexOf(octets[1..]) && |HexOf(octets)| >= 2
    ensures HexOf(octets)[0] == DigitText(octets[0] / 16) && HexOf(octets)[1] == DigitText(octets[0] % 16)
  {
    hide DigitValue, DigitText;
    match (DigitValue(s[0]), DigitValue(s[1]), ParseHex(s[2..])) {
      case (Some(high), Some(low), Some(rest)) =>
        OctetSplits(high, low);
        assert octets == [octets[0]] + octets[1..];
        assert ([OctetOf(high, low)] + rest)[1..] == rest;
      case _ =>
    }
  }

  lemma TwoThenRest(s: string, t: string)
    requires |s| >= 2 && |t| >= 2
    ensures SameButCase(s, t) <==> SameDigit(s[0], t[0]) && SameDigit(s[1], t[1]) && SameButCase(s[2..], t[2..])
  {
    hide SameDigit;
    if SameDigit(s[0], t[0]) && SameDigit(s[1], t[1]) && SameButCase(s[2..], t[2..]) {
      forall i | 0 <= i < |t| ensures SameDigit(s[i], t[i]) {
        assert i >= 2 ==> s[2..][i - 2] == s[i] && t[2..][i - 2] == t[i];
      }
    }
  }

  /** What reads as an identifier: its digits in either case, bare, with the
      four hyphens, in braces, or after the URN prefix; nothing else. */
  lemma ReadFormsAre(s: string, u: Uuid)
    ensures ParseUuid(s) == Some(u) <==>
      || SameButCase(s, Simple(u))
      || SameButCase(s, Hyphenated(u))
      || (|s| == 38 && s[0] == '{' && s[37] == '}' && SameButCase(s[1..37], Hyphenated(u)))
      || (|s| == 45 && s[..9] == "urn:uuid:" && SameButCase(s[9..], Hyphenated(u)))
  {
    hide ParseHex, HexOf, SameDigit, Hyphenate, Dehyphenate;
    SimpleReads(s, u);
    if |s| == 36 {
      HyphenatedReads(s, u);
    }
    if |s| == 38 {
      HyphenatedReads(s[1..37], u);
    }
    if |s| == 45 {
      HyphenatedReads(s[9..], u);
    }
  }

  lemma SimpleReads(s: string, u: Uuid)
    ensures |s| == 32 ==> (ParseSimple(s) == Some(u) <==> SameButCase(s, Simple(u)))
    ensures |Simple(u)| == 32
  {
    hide ParseHex, SameDigit;
    ParseHexIff(s, u.octets);
    if |s| == 32 && ParseSimple(s) == Some(u) {
      assert ParseHex(s).value == u.octets;
    }
  }

  lemma HyphenatedReads(t: string, u: Uuid)
    requires |t| == 36
    ensures ParseHyphenated(t) == Some(u) <==> SameButCase(t, Hyphenated(u))
  {
    hide ParseHex, HexOf, ParseSimple;
    var s := Dehyphenate(t);
    SimpleReads(s, u);
    HyphenRoundTrip(Simple(u));
    HyphensApart(t, Simple(u));
  }

  /** Case apart, a text is the hyphenation of another exactly when it has the
      hyphens and its digits are the same. */
  lemma HyphensApart(t: string, digits: string)
    requires |t| == 36 && |digits| == 32
    ensures SameButCase(t, Hyphenate(digits)) <==>
      t[8] == '-' && t[13] == '-' && t[18] == '-' && t[23] == '-' && SameButCase(Dehyphenate(t), digits)
  {
    hide SameDigit;
    var full := Hyphenate(digits);
    forall c: char ensures SameDigit(c, '-') <==> c == '-' {
      HyphenIsNoDigit(c);
    }
    if SameButCase(t, full) {
      forall i | 0 <= i < 32 ensures SameDigit(Dehyphenate(t)[i], digits[i]) {
        assert !IsHyphenAt(TextIndex(i)) && DigitIndex(TextIndex(i)) == i;
        assert SameDigit(t[TextIndex(i)], full[TextIndex(i)]);
      }
      assert forall j :: 0 <= j < 36 ==> SameDigit(t[j], full[j]);
    }
    if t[8] == '-' && t[13] == '-' && t[18] == '-' && t[23] == '-' && SameButCase(Dehyphenate(t), digits) {
      forall j | 0 <= j < 36 ensures SameDigit(t[j], full[j]) {
        if !IsHyphenAt(j) {
          assert TextIndex(DigitIndex(j)) == j;
          assert SameDigit(Dehyphenate(t)[DigitIndex(j)], digits[DigitIndex(j)]);
        }
      }
    }
  }

  lemma HyphenIsNoDigit(c: char)
    ensures SameDigit(c, '-') <==> c == '-'
  {
  }
}
