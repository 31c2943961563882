/** The identity of a wiki page and its slug: printed, split and parsed
    (crates/episcience-core/src/wiki/key.rs). */
module WikiKeys {
  import opened Base
  import opened UuidText

  const MAX_I64 := 0x7FFF_FFFF_FFFF_FFFF

  type I64 = n: int | -MAX_I64 - 1 <= n <= MAX_I64

  datatype WikiKey = WikiKey(runId: Uuid, clusterId: I64, splitPart: Option<I64>)

  // ── Printing ────────────────────────────────────────────────────────────

  predicate IsDigit(c: char) {
    '0' <= c <= '9'
  }

  function Decimal(n: nat): (t: string)
    ensures t != "" && forall i :: 0 <= i < |t| ==> IsDigit(t[i])
  {
    (if n < 10 then "" else Decimal(n / 10)) + [(n % 10 + '0' as int) as char]
  }

  function IntText(n: int): string {
    if n < 0 then "-" + Decimal(-n) else Decimal(n)
  }

  function AsSlug(k: WikiKey): string {
    "r" + Simple(k.runId) + "-c" + IntText(k.clusterId)
    + match k.splitPart
      case Some(part) => "-s" + IntText(part)
      case None => ""
  }

  // ── Parsing ─────────────────────────────────────────────────────────────

  function DigitOf(c: char): nat
    requires IsDigit(c)
  {
    c as int - '0' as int
  }

  function Value(t: string): (n: nat)
    requires forall i :: 0 <= i < |t| ==> IsDigit(t[i])
  {
    if t == "" then 0 else 10 * Value(t[..|t| - 1]) + DigitOf(t[|t| - 1])
  }

  /** Digits only; a value over the width is refused. */
  function ParseDigits(t: string): Option<I64> {
    if t == "" || exists i :: 0 <= i < |t| && !IsDigit(t[i]) then None
    else if Value(t) > MAX_I64 then None
    else Some(Value(t))
  }

  function Split(s: string, separator: char): (parts: seq<string>)
    ensures parts != []
  {
    if s == "" then [""]
    else
      var rest := Split(s[1..], separator);
      if s[0] == separator then [""] + rest else [[s[0]] + rest[0]] + rest[1..]
  }

  function StripPrefix(s: string, c: char): Option<string> {
    if s != "" && s[0] == c then Some(s[1..]) else None
  }

  function ParseMarked(part: string, mark: char): Option<I64> {
    match StripPrefix(part, mark)
    case None => None
    case Some(digits) => ParseDigits(digits)
  }

  function ParseParts(parts: seq<string>): Option<WikiKey>
    requires parts != []
  {
    if |parts| == 1 || |parts| > 3 || |parts[0]| != 32 || exists i :: 0 <= i < 32 && !IsLowerHex(parts[0][i]) then None
    else
      match (ParseUuid(parts[0]), ParseMarked(parts[1], 'c'))
      case (Some(run), Some(cluster)) =>
        if |parts| == 2 then Some(WikiKey(run, cluster, None))
        else (match ParseMarked(parts[2], 's')
              case Some(part) => Some(WikiKey(run, cluster, Some(part)))
              case None => None)
      case _ => None
  }

  /** Only the spelling that is printed is accepted. */
  function ParseSlug(s: string): Option<WikiKey> {
    match StripPrefix(s, 'r')
    case None => None
    case Some(rest) =>
      match ParseParts(Split(rest, '-'))
      case Some(k) => if AsSlug(k) == s then Some(k) else None
      case None => None
  }

  // ── From the theme's properties ─────────────────────────────────────────

  datatype Json =
    | JNull
    | JBool(value: bool)
    | JInt(number: int)
    | JFloat(float: real)
    | JText(text: string)
    | JArray(items: seq<Json>)
    | JObject(fields: map<string, Json>)

  function Get(p: Json, field: string): Option<Json> {
    if p.JObject? && field in p.fields then Some(p.fields[field]) else None
  }

  /** A non-negative integer of the width, or nothing. */
  function AsIndex(v: Option<Json>): Option<I64> {
    if v.Some? && v.value.JInt? && 0 <= v.value.number <= MAX_I64 then Some(v.value.number) else None
  }

  function FromProperties(p: Json): Option<WikiKey> {
    match (Get(p, "cluster_run_id"), AsIndex(Get(p, "cluster_id")))
    case (Some(JText(run)), Some(cluster)) =>
      (match ParseUuid(run)
       case None => None
       case Some(runId) =>
         var split := Get(p, "split_part");
         if split.None? || split.value.JNull? then Some(WikiKey(runId, cluster, None))
         else (match AsIndex(split)
               case Some(part) => Some(WikiKey(runId, cluster, Some(part)))
               case None => None))
    case _ => None
  }

  // ── Round trips ─────────────────────────────────────────────────────────

  lemma {:induction false} DecimalValue(n: nat)
    ensures Value(Decimal(n)) == n
  {
    var t := Decimal(n);
    assert t[|t| - 1] == (n % 10 + '0' as int) as char;
    if n < 10 {
      assert t[..|t| - 1] == "";
    } else {
      DecimalValue(n / 10);
      assert t[..|t| - 1] == Decimal(n / 10);
    }
  }

  lemma DigitsRoundTrip(n: I64)
    requires n >= 0
    ensures ParseDigits(IntText(n)) == Some(n)
  {
    DecimalValue(n);
  }

  /** Cutting at the first separator. */
  lemma {:induction false} SplitFirst(a: string, separator: char, b: string)
    requires separator !in a
    ensures Split(a + [separator] + b, separator) == [a] + Split(b, separator)
  {
    var s := a + [separator] + b;
    if a == "" {
      assert s[1..] == b;
    } else {
      assert s[1..] == a[1..] + [separator] + b;
      SplitFirst(a[1..], separator, b);
      assert s[0] == a[0] && a == [a[0]] + a[1..];
    }
  }

  lemma {:induction false} SplitNone(a: string, separator: char)
    requires separator !in a
    ensures Split(a, separator) == [a]
  {
    if a != "" {
      SplitNone(a[1..], separator);
      assert a[0] != separator && a == [a[0]] + a[1..];
    }
  }

  predicate NonNegative(k: WikiKey) {
    k.clusterId >= 0 && (k.splitPart.Some? ==> k.splitPart.value >= 0)
  }

  lemma SplitTwo(a: string, separator: char, b: string)
    requires separator !in a && separator !in b
    ensures Split(a + [separator] + b, separator) == [a, b]
  {
    hide Split;
    SplitFirst(a, separator, b);
    SplitNone(b, separator);
  }

  lemma SplitThree(a: string, separator: char, b: string, c: string)
    requires separator !in a && separator !in b && separator !in c
    ensures Split(a + [separator] + (b + [separator] + c), separator) == [a, b, c]
  {
    hide Split;
    SplitFirst(a, separator, b + [separator] + c);
    SplitTwo(b, separator, c);
  }

  lemma NoHyphen(mark: char, n: nat)
    requires mark != '-'
    ensures '-' !in [mark] + IntText(n)
  {
  }

  lemma NoHyphenInRun(u: Uuid)
    ensures '-' !in Simple(u)
  {
    assert !IsLowerHex('-');
  }

  /** How the slug of a key falls apart. */
  lemma SlugParts(k: WikiKey)
    requires NonNegative(k)
    ensures AsSlug(k) != "" && AsSlug(k)[0] == 'r'
    ensures Split(AsSlug(k)[1..], '-')
         == [Simple(k.runId), "c" + IntText(k.clusterId)]
            + if k.splitPart.Some? then ["s" + IntText(k.splitPart.value)] else []
  {
    hide Simple, Decimal, IntText, Split;
    var run, cluster := Simple(k.runId), "c" + IntText(k.clusterId);
    NoHyphenInRun(k.runId);
    NoHyphen('c', k.clusterId);
    if k.splitPart.Some? {
      var part := "s" + IntText(k.splitPart.value);
      NoHyphen('s', k.splitPart.value);
      assert AsSlug(k)[1..] == run + ['-'] + (cluster + ['-'] + part);
      SplitThree(run, '-', cluster, part);
    } else {
      assert AsSlug(k)[1..] == run + ['-'] + cluster;
      SplitTwo(run, '-', cluster);
    }
  }

  lemma SlugRoundTrip(k: WikiKey)
    requires NonNegative(k)
    ensures ParseSlug(AsSlug(k)) == Some(k)
  {
    hide Split, ParseDigits, IntText, Simple, AsSlug, ParseSimple;
    SlugParts(k);
    SimpleRoundTrip(k.runId);
    DigitsRoundTrip(k.clusterId);
    MarkedRoundTrip(k.clusterId, 'c');
    if k.splitPart.Some? {
      MarkedRoundTrip(k.splitPart.value, 's');
    }
  }

  lemma MarkedRoundTrip(n: I64, mark: char)
    requires n >= 0
    ensures ParseMarked([mark] + IntText(n), mark) == Some(n)
  {
    hide ParseDigits, IntText;
    DigitsRoundTrip(n);
    assert ([mark] + IntText(n))[1..] == IntText(n);
  }

  lemma ParsedIsNonNegative(s: string)
    ensures ParseSlug(s).Some? ==> NonNegative(ParseSlug(s).value)
  {
    hide Split, AsSlug, ParseUuid;
  }

  /** Printing and parsing are inverse to each other: a text parses to a key
      exactly when the key's numbers are non-negative and the text is its slug.
      One page has one URL, and one URL names one page. */
  lemma SlugBijection(s: string, k: WikiKey)
    ensures ParseSlug(s) == Some(k) <==> NonNegative(k) && AsSlug(k) == s
  {
    hide Split, AsSlug, ParseParts;
    ParsedIsNonNegative(s);
    if NonNegative(k) {
      SlugRoundTrip(k);
    }
  }

  lemma SlugInjective(a: WikiKey, b: WikiKey)
    requires NonNegative(a) && NonNegative(b) && AsSlug(a) == AsSlug(b)
    ensures a == b
  {
    hide AsSlug, ParseSlug;
    SlugRoundTrip(a);
    SlugRoundTrip(b);
  }

  function PropertiesOf(k: WikiKey): Json {
    JObject(map["cluster_run_id" := JText(Hyphenated(k.runId)), "cluster_id" := JInt(k.clusterId),
                "split_part" := if k.splitPart.Some? then JInt(k.splitPart.value) else JNull])
  }

  /** Every key the properties yield round-trips through its slug, and they
      yield every key that does. */
  lemma PropertiesYieldSlugs(k: WikiKey)
    ensures (exists p :: FromProperties(p) == Some(k)) <==> ParseSlug(AsSlug(k)) == Some(k)
  {
    hide AsSlug, ParseSlug, Hyphenated, ParseHyphenated;
    SlugBijection(AsSlug(k), k);
    if NonNegative(k) {
      HyphenatedRoundTrip(k.runId);
      assert FromProperties(PropertiesOf(k)) == Some(k);
    }
    if p :| FromProperties(p) == Some(k) {
      assert NonNegative(k);
    }
  }

  // ── The slug, character by character ────────────────────────────────────

  function Pow10(k: nat): (p: nat)
    ensures p >= 1
  {
    if k == 0 then 1 else 10 * Pow10(k - 1)
  }

  /** Decimal text: no leading zero, and the k-th character from the right is
      the digit of 10^k. */
  lemma {:induction false} DecimalMeans(n: nat)
    ensures var t := Decimal(n);
      && (if n == 0 then |t| == 1 else Pow10(|t| - 1) <= n < Pow10(|t|))
      && forall k :: 0 <= k < |t| ==> t[|t| - 1 - k] == "0123456789"[n / Pow10(k) % 10]
  {
    hide Decimal, Pow10;
    var t := Decimal(n);
    DecimalUnfolds(n);
    PowersStart();
    if n >= 10 {
      DecimalMeans(n / 10);
      var head := Decimal(n / 10);
      PowerUnfolds(|head|);
      PowerUnfolds(|t|);
      TenTimes(n, Pow10(|head| - 1), Pow10(|head|));
      forall k | 0 < k < |t| ensures t[|t| - 1 - k] == "0123456789"[n / Pow10(k) % 10] {
        assert t[|t| - 1 - k] == head[|head| - 1 - (k - 1)];
        PowerUnfolds(k);
        TenthDivides(n, Pow10(k - 1));
      }
    }
  }

  /** A negative number has a sign before its decimal text, and its slug does
      not parse. */
  lemma NegativeText(n: int, k: WikiKey)
    ensures n < 0 ==> IntText(n) == ['-'] + Decimal(-n)
    ensures n >= 0 ==> IntText(n) == Decimal(n)
    ensures !NonNegative(k) ==> ParseSlug(AsSlug(k)) != Some(k)
  {
    hide AsSlug, ParseSlug, Decimal;
    SlugBijection(AsSlug(k), k);
  }

  lemma DecimalUnfolds(n: nat)
    ensures var t := Decimal(n);
      && (n < 10 ==> |t| == 1) && (n >= 10 ==> t[..|t| - 1] == Decimal(n / 10))
      && t[|t| - 1] == "0123456789"[n % 10]
  {
    DigitChar(n % 10);
    var head := if n < 10 then "" else Decimal(n / 10);
    assert Decimal(n) == head + [(n % 10 + '0' as int) as char];
  }

  lemma DigitChar(d: nat)
    requires d < 10
    ensures (d + '0' as int) as char == "0123456789"[d]
  {
  }

  lemma PowersStart()
    ensures Pow10(0) == 1 && Pow10(1) == 10 && forall n: nat :: n / Pow10(0) == n
  {
  }

  lemma PowerUnfolds(k: nat)
    ensures k > 0 ==> Pow10(k) == 10 * Pow10(k - 1)
  {
  }

  lemma TenTimes(n: nat, low: nat, high: nat)
    requires low <= n / 10 < high
    ensures 10 * low <= n < 10 * high
  {
  }

  lemma TenthDivides(n: nat, p: nat)
    requires p >= 1
    ensures n / 10 / p == n / (10 * p)
  {
    var q := n / 10 / p;
    var r := n / 10 - q * p;
    assert 0 <= r < p;
    var low := n - 10 * (n / 10);
    assert n == 10 * (q * p + r) + low;
    assert 10 * (q * p) == q * (10 * p);
    assert 0 <= 10 * r + low < 10 * p;
    QuotientIs(n, 10 * p, q, 10 * r + low);
  }

  lemma QuotientIs(n: nat, m: nat, q: nat, r: nat)
    requires m > 0 && n == q * m + r && r < m
    ensures n / m == q
  {
    var d := n / m;
    if d < q {
      MoreTimes(d + 1, q, m);
    } else if d > q {
      MoreTimes(q + 1, d, m);
    }
  }

  lemma MoreTimes(a: nat, b: nat, m: nat)
    requires a <= b
    ensures a * m <= b * m
  {
  }

  /** The slug of a key with non-negative numbers: an r, the octets of the run
      as 32 lower-case digits, -c and the cluster in decimal, and for a split
      page -s and the part in decimal. */
  lemma SlugMeans(k: WikiKey)
    requires NonNegative(k)
    ensures var s, c := AsSlug(k), Decimal(k.clusterId);
      && |s| == 35 + |c| + (if k.splitPart.Some? then 2 + |Decimal(k.splitPart.value)| else 0)
      && s[0] == 'r'
      && (forall i :: 0 <= i < 16 ==> s[1 + 2 * i] == DIGITS[k.runId.octets[i] / 16] && s[2 + 2 * i] == DIGITS[k.runId.octets[i] % 16])
      && s[33..35] == "-c" && s[35..35 + |c|] == c
      && (k.splitPart.Some? ==> s[35 + |c|..37 + |c|] == "-s" && s[37 + |c|..] == Decimal(k.splitPart.value))
  {
    hide Decimal, HexOf, AsSlug, Simple;
    var run, c := Simple(k.runId), Decimal(k.clusterId);
    var part := if k.splitPart.Some? then Decimal(k.splitPart.value) else "";
    SlugText(k);
    PiecesOf(run, c, if k.splitPart.Some? then "-s" + part else "");
    if k.splitPart.Some? {
      LastPiece(AsSlug(k)[..35 + |c|], part);
    }
    forall i | 0 <= i < 16
      ensures run[2 * i] == DIGITS[k.runId.octets[i] / 16] && run[2 * i + 1] == DIGITS[k.runId.octets[i] % 16]
    {
      SimpleMeans(k.runId, i);
    }
  }

  lemma SlugText(k: WikiKey)
    requires NonNegative(k)
    ensures AsSlug(k) == "r" + Simple(k.runId) + "-c" + Decimal(k.clusterId)
      + if k.splitPart.Some? then "-s" + Decimal(k.splitPart.value) else ""
  {
    hide Decimal, Simple;
  }

  lemma SimpleMeans(u: Uuid, i: nat)
    requires i < 16
    ensures Simple(u)[2 * i] == DIGITS[u.octets[i] / 16] && Simple(u)[2 * i + 1] == DIGITS[u.octets[i] % 16]
  {
    hide HexOf;
    HexMeans(u.octets, i);
  }

  lemma PiecesOf(run: string, c: string, tail: string)
    requires |run| == 32
    ensures var s := "r" + run + "-c" + c + tail;
      && |s| == 35 + |c| + |tail| && s[0] == 'r' && s[1..33] == run && s[33..35] == "-c" && s[35..35 + |c|] == c && s[35 + |c|..] == tail
      && (forall i :: 0 <= i < 32 ==> s[1 + i] == run[i]) && s == s[..35 + |c|] + tail
  {
  }

  lemma LastPiece(front: string, part: string)
    ensures var s := front + ("-s" + part); s[|front|..|front| + 2] == "-s" && s[|front| + 2..] == part
  {
  }

  /** The keys of a theme: its run must be the text of an identifier and its
      cluster a non-negative integer of the width; a split part that is there
      and not null must be one too. */
  lemma PropertiesMean(p: Json, k: WikiKey)
    ensures FromProperties(p) == Some(k) <==>
      && p.JObject?
      && "cluster_run_id" in p.fields && p.fields["cluster_run_id"].JText? && ParseUuid(p.fields["cluster_run_id"].text) == Some(k.runId)
      && "cluster_id" in p.fields && p.fields["cluster_id"] == JInt(k.clusterId) && k.clusterId >= 0
      && (if "split_part" !in p.fields || p.fields["split_part"] == JNull then k.splitPart.None?
          else k.splitPart.Some? && k.splitPart.value >= 0 && p.fields["split_part"] == JInt(k.splitPart.value))
  {
    hide ParseUuid;
  }
}
