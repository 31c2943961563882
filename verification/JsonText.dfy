/** JSON texts as trees that keep every byte of their spelling, and what the
    repair makes of the lenient ones (RFC 8259, sections 2 to 7). */
module JsonText {
  import opened Base
  import opened RepairJson

  // ── Strings (section 7) ─────────────────────────────────────────────────

  /** One spelled character of a string literal. */
  datatype StrItem = Raw(c: char) | Esc(c: char) | Unicode(hex: string)

  predicate IsHex(c: char) {
    '0' <= c <= '9' || 'a' <= c <= 'f' || 'A' <= c <= 'F'
  }

  function HexValue(c: char): int
    requires IsHex(c)
  {
    if '0' <= c <= '9' then c as int - '0' as int
    else if 'a' <= c <= 'f' then c as int - 'a' as int + 10
    else c as int - 'A' as int + 10
  }

  /** A well-formed item; a lenient one may be an unescaped control
      character. */
  predicate ValidItem(i: StrItem, strict: bool) {
    match i
    case Raw(c) => c != '"' && c != '\\' && (strict ==> c as int >= 0x20)
    case Esc(c) => c in "\"\\/bfnrt"
    case Unicode(h) => |h| == 4 && IsHex(h[0]) && IsHex(h[1]) && IsHex(h[2]) && IsHex(h[3])
  }

  predicate ValidItems(s: seq<StrItem>, strict: bool) {
    forall k :: 0 <= k < |s| ==> ValidItem(s[k], strict)
  }

  /** The UTF-16 code units an item denotes. */
  function ItemUnits(i: StrItem): seq<int>
    requires ValidItem(i, false)
  {
    match i
    case Raw(c) =>
      var n := c as int;
      if n < 0x10000 then [n] else [0xD800 + (n - 0x10000) / 0x400, 0xDC00 + (n - 0x10000) % 0x400]
    case Esc(c) =>
      [if c == 'b' then 8 else if c == 't' then 9 else if c == 'n' then 10
       else if c == 'f' then 12 else if c == 'r' then 13 else c as int]
    case Unicode(h) => [HexValue(h[0]) * 4096 + HexValue(h[1]) * 256 + HexValue(h[2]) * 16 + HexValue(h[3])]
  }

  function Units(s: seq<StrItem>): seq<int>
    requires ValidItems(s, false)
  {
    if s == [] then [] else ItemUnits(s[0]) + Units(s[1..])
  }

  /** The strict spelling of an item: a raw control character escaped. */
  function FixItem(i: StrItem): StrItem {
    if i.Raw? && IsControl(i.c) then
      if i.c == '\n' then Esc('n') else if i.c == '\r' then Esc('r') else if i.c == '\t' then Esc('t')
      else Unicode("00" + [HexDigit(i.c as int / 16), HexDigit(i.c as int % 16)])
    else i
  }

  function FixItems(s: seq<StrItem>): (t: seq<StrItem>)
    ensures |t| == |s| && forall k :: 0 <= k < |s| ==> t[k] == FixItem(s[k])
  {
    if s == [] then [] else [FixItem(s[0])] + FixItems(s[1..])
  }

  function EmitItem(i: StrItem, rest: string): string {
    match i
    case Raw(c) => [c] + rest
    case Esc(c) => ['\\'] + ([c] + rest)
    case Unicode(h) => ['\\'] + (['u'] + (h + rest))
  }

  function EmitItems(s: seq<StrItem>, rest: string): string {
    if s == [] then rest else EmitItem(s[0], EmitItems(s[1..], rest))
  }

  // ── Scalars (sections 3 and 6) ──────────────────────────────────────────

  datatype NumberState = Start | Minus | Zero | Digits | Point | Fraction | Exponent | Sign | Power | Bad

  predicate IsDigit(c: char) {
    '0' <= c <= '9'
  }

  function NumberNext(s: NumberState, c: char): NumberState {
    match s
    case Start => if c == '-' then Minus else if c == '0' then Zero else if IsDigit(c) then Digits else Bad
    case Minus => if c == '0' then Zero else if IsDigit(c) then Digits else Bad
    case Zero => if c == '.' then Point else if c == 'e' || c == 'E' then Exponent else Bad
    case Digits =>
      if IsDigit(c) then Digits else if c == '.' then Point else if c == 'e' || c == 'E' then Exponent else Bad
    case Point => if IsDigit(c) then Fraction else Bad
    case Fraction => if IsDigit(c) then Fraction else if c == 'e' || c == 'E' then Exponent else Bad
    case Exponent => if c == '+' || c == '-' then Sign else if IsDigit(c) then Power else Bad
    case Sign => if IsDigit(c) then Power else Bad
    case Power => if IsDigit(c) then Power else Bad
    case Bad => Bad
  }

  predicate NumberFrom(s: NumberState, t: string)
    decreases |t|
  {
    if t == [] then s in {Zero, Digits, Fraction, Power} else NumberFrom(NumberNext(s, t[0]), t[1..])
  }

  predicate IsScalar(t: string) {
    t == "true" || t == "false" || t == "null" || NumberFrom(Start, t)
  }

  /** Neither whitespace nor structural nor a quote. */
  predicate IsPlain(c: char) {
    !IsWs(c) && c !in {'"', ',', ':', '{', '}', '[', ']'}
  }

  lemma {:induction false} NumbersArePlain(s: NumberState, t: string)
    requires NumberFrom(s, t)
    ensures forall k :: 0 <= k < |t| ==> IsPlain(t[k])
    decreases |t|
  {
    if t != [] {
      NumbersArePlain(NumberNext(s, t[0]), t[1..]);
      if !IsPlain(t[0]) {
        NoNumberFromBad(t[1..]);
      }
    }
  }

  lemma {:induction false} NoNumberFromBad(t: string)
    ensures !NumberFrom(Bad, t)
  {
    if t != [] {
      NoNumberFromBad(t[1..]);
    }
  }

  lemma ScalarsArePlain(t: string)
    requires IsScalar(t)
    ensures t != [] && forall k :: 0 <= k < |t| ==> IsPlain(t[k])
  {
    if NumberFrom(Start, t) {
      NumbersArePlain(Start, t);
    }
  }

  // ── Trees (sections 2, 4 and 5) ─────────────────────────────────────────

  datatype Kind = Array | Object

  function Opener(k: Kind): char {
    if k.Array? then '[' else '{'
  }

  function Closer(k: Kind): char {
    if k.Array? then ']' else '}'
  }

  datatype Json =
    | Scalar(text: string)
    | Str(items: seq<StrItem>)
    | Empty(kind: Kind, ws: string)
    | Container(kind: Kind, entries: Entries)

  /** The entries of a container with at least one, with the whitespace
      around each; the last may be followed by a comma and more whitespace. */
  datatype Entries =
    | Last(lead: string, entry: Entry, trail: string, comma: Option<string>)
    | More(lead: string, entry: Entry, trail: string, rest: Entries)

  datatype Entry = Element(value: Json) | Member(name: seq<StrItem>, before: string, after: string, value: Json)

  datatype Document = Document(lead: string, root: Json, trail: string)

  predicate AllWs(s: string) {
    forall k :: 0 <= k < |s| ==> s[k] == ' ' || s[k] == '\t' || s[k] == '\n' || s[k] == '\r'
  }

  /** A JSON tree; a lenient one may hold unescaped control characters in its
      strings and a trailing comma in its containers. */
  predicate Valid(j: Json, strict: bool) {
    match j
    case Scalar(t) => IsScalar(t)
    case Str(s) => ValidItems(s, strict)
    case Empty(_, ws) => AllWs(ws)
    case Container(k, es) => ValidEntries(es, k, strict)
  }

  predicate ValidEntries(es: Entries, k: Kind, strict: bool) {
    && AllWs(es.lead) && AllWs(es.trail) && ValidEntry(es.entry, k, strict)
    && match es
       case Last(_, _, _, comma) => comma.Some? ==> !strict && AllWs(comma.value)
       case More(_, _, _, rest) => ValidEntries(rest, k, strict)
  }

  predicate ValidEntry(e: Entry, k: Kind, strict: bool) {
    match e
    case Element(v) => k.Array? && Valid(v, strict)
    case Member(name, before, after, v) =>
      k.Object? && ValidItems(name, strict) && AllWs(before) && AllWs(after) && Valid(v, strict)
  }

  predicate Lenient(d: Document) {
    AllWs(d.lead) && AllWs(d.trail) && Valid(d.root, false)
  }

  /** Exactly the JSON texts of RFC 8259. */
  predicate Strict(d: Document) {
    AllWs(d.lead) && AllWs(d.trail) && Valid(d.root, true)
  }

  /** The text of a tree, followed by `rest`. */
  function Emit(j: Json, rest: string): string {
    match j
    case Scalar(t) => t + rest
    case Str(s) => ['"'] + EmitItems(s, ['"'] + rest)
    case Empty(k, ws) => [Opener(k)] + (ws + ([Closer(k)] + rest))
    case Container(k, es) => [Opener(k)] + EmitEntries(es, [Closer(k)] + rest)
  }

  function EmitEntries(es: Entries, rest: string): string {
    match es
    case Last(lead, e, trail, None) => lead + EmitEntry(e, trail + rest)
    case Last(lead, e, trail, Some(ws)) => lead + EmitEntry(e, trail + ([','] + (ws + rest)))
    case More(lead, e, trail, more) => lead + EmitEntry(e, trail + ([','] + EmitEntries(more, rest)))
  }

  function EmitEntry(e: Entry, rest: string): string {
    match e
    case Element(v) => Emit(v, rest)
    case Member(name, before, after, v) =>
      ['"'] + EmitItems(name, ['"'] + (before + ([':'] + (after + Emit(v, rest)))))
  }

  function Text(d: Document): string {
    d.lead + Emit(d.root, d.trail)
  }

  /** The strict spelling of a lenient tree. */
  function Fix(j: Json): Json {
    match j
    case Scalar(_) => j
    case Str(s) => Str(FixItems(s))
    case Empty(_, _) => j
    case Container(k, es) => Container(k, FixEntries(es))
  }

  function FixEntries(es: Entries): Entries {
    match es
    case Last(lead, e, trail, None) => Last(lead, FixEntry(e), trail, None)
    case Last(lead, e, trail, Some(ws)) => Last(lead, FixEntry(e), trail + ws, None)
    case More(lead, e, trail, rest) => More(lead, FixEntry(e), trail, FixEntries(rest))
  }

  function FixEntry(e: Entry): Entry {
    match e
    case Element(v) => Element(Fix(v))
    case Member(name, before, after, v) => Member(FixItems(name), before, after, Fix(v))
  }

  function FixDocument(d: Document): Document {
    d.(root := Fix(d.root))
  }

  // ── What a text means ───────────────────────────────────────────────────

  datatype Value =
    | ScalarValue(text: string)
    | StringValue(units: seq<int>)
    | ArrayValue(items: seq<Value>)
    | ObjectValue(members: seq<(seq<int>, Value)>)

  function Meaning(j: Json): Value
    requires Valid(j, false)
  {
    match j
    case Scalar(t) => ScalarValue(t)
    case Str(s) => StringValue(Units(s))
    case Empty(k, _) => if k.Array? then ArrayValue([]) else ObjectValue([])
    case Container(k, es) => if k.Array? then ArrayValue(Elements(es)) else ObjectValue(Members(es))
  }

  function Elements(es: Entries): seq<Value>
    requires ValidEntries(es, Array, false)
  {
    assert ValidEntry(es.entry, Array, false);
    [Meaning(es.entry.value)] + if es.More? then Elements(es.rest) else []
  }

  function Members(es: Entries): seq<(seq<int>, Value)>
    requires ValidEntries(es, Object, false)
  {
    assert ValidEntry(es.entry, Object, false);
    [(Units(es.entry.name), Meaning(es.entry.value))] + if es.More? then Members(es.rest) else []
  }

  // ── Scanning a tree ─────────────────────────────────────────────────────

  /** What the repair writes for `text` from a given state. */
  function Scan(place: Place, last: Option<char>, text: string): string {
    AfterAll(Script(place, last, text))
  }

  lemma ScanStep(place: Place, last: Option<char>, c: char, rest: string)
    ensures Scan(place, last, [c] + rest)
         == After(EditOf(place, last, c, rest)) + Scan(Next(place, c), LastAfter(place, last, c, rest), rest)
  {
    ScriptUnfolds(place, last, [c] + rest);
    assert ([c] + rest)[1..] == rest;
  }

  lemma {:induction false} ScanWs(last: Option<char>, ws: string, rest: string)
    requires AllWs(ws)
    ensures Scan(Outside, last, ws + rest) == ws + Scan(Outside, last, rest)
  {
    hide Scan;
    if ws == [] {
      assert ws + rest == rest;
    } else {
      assert ws + rest == [ws[0]] + (ws[1..] + rest);
      ScanStep(Outside, last, ws[0], ws[1..] + rest);
      ScanWs(last, ws[1..], rest);
    }
  }

  lemma {:induction false} ScanPlain(last: Option<char>, t: string, rest: string)
    requires t != [] && forall k :: 0 <= k < |t| ==> IsPlain(t[k])
    ensures Scan(Outside, last, t + rest) == t + Scan(Outside, Some(t[|t| - 1]), rest)
    decreases |t|
  {
    hide Scan;
    assert t + rest == [t[0]] + (t[1..] + rest);
    ScanStep(Outside, last, t[0], t[1..] + rest);
    if |t| == 1 {
      assert t[1..] + rest == rest;
    } else {
      ScanPlain(Some(t[0]), t[1..], rest);
    }
  }

  lemma ScanStructural(last: Option<char>, c: char, rest: string)
    requires c in {'{', '}', '[', ']', ':'}
    ensures Scan(Outside, last, [c] + rest) == [c] + Scan(Outside, Some(c), rest)
  {
    hide Scan;
    ScanStep(Outside, last, c, rest);
  }

  lemma ScanQuoted(place: Place, last: Option<char>, c: char, rest: string)
    requires place == AfterBackslash || (place == Inside && c != '"' && c != '\\' && !IsControl(c))
    ensures Scan(place, last, [c] + rest) == [c] + Scan(Inside, last, rest)
  {
    hide Scan;
    ScanStep(place, last, c, rest);
  }

  lemma ScanBackslash(last: Option<char>, c: char, rest: string)
    ensures Scan(Inside, last, ['\\'] + ([c] + rest)) == ['\\'] + ([c] + Scan(Inside, last, rest))
  {
    hide Scan;
    ScanStep(Inside, last, '\\', [c] + rest);
    ScanQuoted(AfterBackslash, last, c, rest);
  }

  lemma ScanHex(last: Option<char>, h: string, rest: string)
    requires ValidItem(Unicode(h), false)
    ensures Scan(Inside, last, h + rest) == h + Scan(Inside, last, rest)
  {
    hide Scan;
    assert h + rest == [h[0]] + ([h[1]] + ([h[2]] + ([h[3]] + rest)));
    ScanQuoted(Inside, last, h[3], rest);
    ScanQuoted(Inside, last, h[2], [h[3]] + rest);
    ScanQuoted(Inside, last, h[1], [h[2]] + ([h[3]] + rest));
    ScanQuoted(Inside, last, h[0], [h[1]] + ([h[2]] + ([h[3]] + rest)));
  }

  lemma EscapeIsFixedItem(c: char, rest: string)
    requires IsControl(c)
    ensures EscapeOf(c) + rest == EmitItem(FixItem(Raw(c)), rest)
  {
    var e := EscapeOf(c);
    if c == '\n' || c == '\r' || c == '\t' {
      assert e + rest == ['\\'] + ([e[1]] + rest);
    } else {
      var h := "00" + [HexDigit(c as int / 16), HexDigit(c as int % 16)];
      UnicodeEscape(e, h, rest);
    }
  }

  lemma UnicodeEscape(e: string, h: string, rest: string)
    requires |h| == 4 && h[..2] == "00" && e == "\\u00" + [h[2], h[3]]
    ensures e + rest == ['\\'] + (['u'] + (h + rest))
  {
  }

  lemma ScanItem(last: Option<char>, i: StrItem, rest: string)
    requires ValidItem(i, false)
    ensures Scan(Inside, last, EmitItem(i, rest)) == EmitItem(FixItem(i), Scan(Inside, last, rest))
  {
    hide Scan;
    match i {
      case Raw(c) =>
        ScanStep(Inside, last, c, rest);
        if IsControl(c) {
          EscapeIsFixedItem(c, Scan(Inside, last, rest));
        }
      case Esc(c) => ScanBackslash(last, c, rest);
      case Unicode(h) =>
        ScanBackslash(last, 'u', h + rest);
        ScanHex(last, h, rest);
    }
  }

  lemma {:induction false} ScanItems(last: Option<char>, s: seq<StrItem>, rest: string)
    requires ValidItems(s, false)
    ensures Scan(Inside, last, EmitItems(s, rest)) == EmitItems(FixItems(s), Scan(Inside, last, rest))
  {
    hide Scan, EmitItem;
    if s != [] {
      ScanItem(last, s[0], EmitItems(s[1..], rest));
      ScanItems(last, s[1..], rest);
    }
  }

  /** A whole string literal leaves the scanner outside, after a value. */
  lemma ScanString(last: Option<char>, s: seq<StrItem>, rest: string)
    requires ValidItems(s, false)
    ensures Scan(Outside, last, ['"'] + EmitItems(s, ['"'] + rest))
         == ['"'] + EmitItems(FixItems(s), ['"'] + Scan(Outside, Some('"'), rest))
  {
    hide Scan, EmitItems;
    ScanStep(Outside, last, '"', EmitItems(s, ['"'] + rest));
    ScanItems(last, s, ['"'] + rest);
    ScanStep(Inside, last, '"', rest);
  }

  lemma {:induction false} ClosesPastWs(ws: string, rest: string)
    requires AllWs(ws)
    ensures Closes(ws + rest) == Closes(rest)
  {
    if ws == [] {
      assert ws + rest == rest;
    } else {
      assert (ws + rest)[1..] == ws[1..] + rest;
      ClosesPastWs(ws[1..], rest);
    }
  }

  lemma EntryDoesNotClose(es: Entries, k: Kind, rest: string)
    requires ValidEntries(es, k, false)
    ensures !Closes(EmitEntries(es, rest))
  {
    match es {
      case Last(lead, e, trail, None) => ValueDoesNotClose(e, k, trail + rest);
        ClosesPastWs(lead, EmitEntry(e, trail + rest));
      case Last(lead, e, trail, Some(ws)) => ValueDoesNotClose(e, k, trail + ([','] + (ws + rest)));
        ClosesPastWs(lead, EmitEntry(e, trail + ([','] + (ws + rest))));
      case More(lead, e, trail, more) => ValueDoesNotClose(e, k, trail + ([','] + EmitEntries(more, rest)));
        ClosesPastWs(lead, EmitEntry(e, trail + ([','] + EmitEntries(more, rest))));
    }
  }

  /** A value's text starts with a character no value ends before: a scalar's
      first, a quote or an opener. */
  function StartOf(j: Json): char
    requires Valid(j, false)
  {
    match j
    case Scalar(t) => ScalarIsPlain(t); t[0]
    case Str(_) => '"'
    case Empty(k, _) => Opener(k)
    case Container(k, _) => Opener(k)
  }

  lemma ScalarIsPlain(t: string)
    requires IsScalar(t)
    ensures t != "" && IsPlain(t[0])
  {
    ScalarsArePlain(t);
  }

  lemma ScalarStarts(t: string, rest: string)
    requires IsScalar(t)
    ensures Emit(Scalar(t), rest) != "" && Emit(Scalar(t), rest)[0] == StartOf(Scalar(t))
  {
    hide IsScalar;
    ScalarIsPlain(t);
  }

  lemma ValueStarts(j: Json, rest: string)
    requires Valid(j, false)
    ensures Emit(j, rest) != "" && Emit(j, rest)[0] == StartOf(j)
    ensures !IsWs(StartOf(j)) && StartOf(j) !in ",:]}"
  {
    hide IsScalar, EmitEntries, EmitItems;
    if j.Scalar? {
      ScalarStarts(j.text, rest);
      ScalarIsPlain(j.text);
    }
  }

  lemma ValueDoesNotClose(e: Entry, k: Kind, rest: string)
    requires ValidEntry(e, k, false)
    ensures !Closes(EmitEntry(e, rest))
  {
    hide EmitItems, Emit, Valid;
    if e.Element? {
      ValueStarts(e.value, rest);
      DoesNotClose(EmitEntry(e, rest));
    } else {
      DoesNotClose(EmitEntry(e, rest));
    }
  }

  lemma DoesNotClose(text: string)
    requires text != "" && !IsWs(text[0]) && text[0] !in "]}"
    ensures !Closes(text)
  {
  }

  /** The character a value's text ends in: it always ends a value. */
  function EndOf(j: Json): char
    requires Valid(j, false)
  {
    match j
    case Scalar(t) => if t == [] then '0' else t[|t| - 1]
    case Str(_) => '"'
    case Empty(k, _) => Closer(k)
    case Container(k, _) => Closer(k)
  }

  function EndOfEntries(es: Entries, k: Kind): char
    requires ValidEntries(es, k, false)
  {
    assert ValidEntry(es.entry, k, false);
    if es.More? then EndOfEntries(es.rest, k) else EndOf(es.entry.value)
  }

  lemma EndsAValue(j: Json)
    requires Valid(j, false)
    ensures EndsValue(Some(EndOf(j)))
  {
    if j.Scalar? {
      ScalarsArePlain(j.text);
    }
  }

  /** Scanning a value writes its strict spelling and leaves the scanner
      outside strings, right after a value. */
  lemma {:induction false} ScanJson(j: Json, last: Option<char>, rest: string)
    requires Valid(j, false)
    ensures Scan(Outside, last, Emit(j, rest)) == Emit(Fix(j), Scan(Outside, Some(EndOf(j)), rest))
    decreases j, 1
  {
    hide Scan;
    match j {
      case Scalar(t) =>
        ScalarsArePlain(t);
        ScanPlain(last, t, rest);
      case Str(s) => ScanString(last, s, rest);
      case Empty(k, ws) =>
        ScanStructural(last, Opener(k), ws + ([Closer(k)] + rest));
        ScanWs(Some(Opener(k)), ws, [Closer(k)] + rest);
        ScanStructural(Some(Opener(k)), Closer(k), rest);
      case Container(k, es) =>
        ScanStructural(last, Opener(k), EmitEntries(es, [Closer(k)] + rest));
        ScanEntries(es, k, Some(Opener(k)), rest);
        ScanStructural(Some(EndOfEntries(es, k)), Closer(k), rest);
    }
  }

  lemma {:induction false} ScanEntry(e: Entry, k: Kind, last: Option<char>, rest: string)
    requires ValidEntry(e, k, false)
    ensures Scan(Outside, last, EmitEntry(e, rest)) == EmitEntry(FixEntry(e), Scan(Outside, Some(EndOf(e.value)), rest))
    decreases e, 1
  {
    hide Scan, EmitItems;
    match e {
      case Element(v) => ScanJson(v, last, rest);
      case Member(name, before, after, v) =>
        var tail := after + Emit(v, rest);
        ScanString(last, name, before + ([':'] + tail));
        ScanWs(Some('"'), before, [':'] + tail);
        ScanStructural(Some('"'), ':', tail);
        ScanWs(Some(':'), after, Emit(v, rest));
        ScanJson(v, Some(':'), rest);
    }
  }

  /** A trailing comma is dropped, its whitespace kept. */
  lemma ScanTrailingComma(last: Option<char>, ws: string, closer: char, rest: string)
    requires EndsValue(last) && AllWs(ws) && closer in {'}', ']'}
    ensures Scan(Outside, last, [','] + (ws + ([closer] + rest))) == ws + Scan(Outside, last, [closer] + rest)
  {
    hide Scan;
    ClosesPastWs(ws, [closer] + rest);
    ScanStep(Outside, last, ',', ws + ([closer] + rest));
    ScanWs(last, ws, [closer] + rest);
  }

  lemma {:induction false} ScanEntries(es: Entries, k: Kind, last: Option<char>, rest: string)
    requires ValidEntries(es, k, false)
    ensures Scan(Outside, last, EmitEntries(es, [Closer(k)] + rest))
         == EmitEntries(FixEntries(es), Scan(Outside, Some(EndOfEntries(es, k)), [Closer(k)] + rest))
    decreases es, 2
  {
    hide Scan, EmitEntry, EmitItems;
    var close := [Closer(k)] + rest;
    var end := Some(EndOf(es.entry.value));
    EndsAValue(es.entry.value);
    match es {
      case Last(lead, e, trail, None) =>
        ScanWs(last, lead, EmitEntry(e, trail + close));
        ScanEntry(e, k, last, trail + close);
        ScanWs(end, trail, close);
      case Last(lead, e, trail, Some(ws)) =>
        var tail := [','] + (ws + close);
        ScanWs(last, lead, EmitEntry(e, trail + tail));
        ScanEntry(e, k, last, trail + tail);
        ScanWs(end, trail, tail);
        ScanTrailingComma(end, ws, Closer(k), rest);
        var out := Scan(Outside, end, close);
        assert trail + (ws + out) == (trail + ws) + out;
      case More(lead, e, trail, more) =>
        var tail := [','] + EmitEntries(more, close);
        ScanWs(last, lead, EmitEntry(e, trail + tail));
        ScanEntry(e, k, last, trail + tail);
        ScanWs(end, trail, tail);
        EntryDoesNotClose(more, k, close);
        ScanStep(Outside, end, ',', EmitEntries(more, close));
        ScanEntries(more, k, Some(','), rest);
    }
  }

  lemma NothingToScan(last: Option<char>)
    ensures Scan(Outside, last, []) == []
  {
  }

  /** The repair of a lenient text is the strict spelling of the same tree. */
  lemma RepairFixes(d: Document)
    requires Lenient(d)
    ensures Repair(Text(d)) == Text(FixDocument(d))
  {
    ScanWs(None, d.lead, Emit(d.root, d.trail));
    ScanJson(d.root, None, d.trail);
    assert d.trail == d.trail + [];
    ScanWs(Some(EndOf(d.root)), d.trail, []);
    NothingToScan(Some(EndOf(d.root)));
  }

  // ── The strict spelling: valid, same meaning ────────────────────────────

  lemma FixItemSound(i: StrItem)
    requires ValidItem(i, false)
    ensures ValidItem(FixItem(i), true) && ValidItem(FixItem(i), false)
    ensures ItemUnits(FixItem(i)) == ItemUnits(i)
    ensures ValidItem(i, true) ==> FixItem(i) == i
  {
    if i.Raw? && IsControl(i.c) {
      HexDigitValue(i.c as int / 16);
      HexDigitValue(i.c as int % 16);
      HexDigitValue(0);
    }
  }

  lemma HexDigitValue(n: int)
    requires 0 <= n < 16
    ensures IsHex(HexDigit(n)) && HexValue(HexDigit(n)) == n
  {
  }

  lemma {:induction false} FixItemsSound(s: seq<StrItem>)
    requires ValidItems(s, false)
    ensures ValidItems(FixItems(s), true) && ValidItems(FixItems(s), false)
    ensures Units(FixItems(s)) == Units(s)
    ensures ValidItems(s, true) ==> FixItems(s) == s
  {
    hide FixItem, ItemUnits;
    if s != [] {
      FixItemSound(s[0]);
      FixItemsSound(s[1..]);
      assert FixItems(s)[1..] == FixItems(s[1..]);
      forall k | 0 < k < |s| ensures FixItems(s)[k] == FixItems(s[1..])[k - 1] {
      }
    }
  }

  /** The strict spelling is JSON, denotes the same value, and is the text
      itself when that is JSON already. */
  lemma {:induction false} FixSound(j: Json)
    requires Valid(j, false)
    ensures Valid(Fix(j), true) && Valid(Fix(j), false)
    ensures Meaning(Fix(j)) == Meaning(j)
    ensures Valid(j, true) ==> Fix(j) == j
    decreases j, 1
  {
    match j {
      case Scalar(_) =>
      case Str(s) => FixItemsSound(s);
      case Empty(_, _) =>
      case Container(k, es) => FixEntriesSound(es, k);
    }
  }

  lemma FixEntrySound(e: Entry, k: Kind)
    requires ValidEntry(e, k, false)
    ensures ValidEntry(FixEntry(e), k, true) && ValidEntry(FixEntry(e), k, false)
    ensures Meaning(FixEntry(e).value) == Meaning(e.value)
    ensures e.Member? ==> FixEntry(e).Member? && Units(FixEntry(e).name) == Units(e.name)
    ensures ValidEntry(e, k, true) ==> FixEntry(e) == e
    decreases e, 2
  {
    FixSound(e.value);
    if e.Member? {
      FixItemsSound(e.name);
    }
  }

  lemma {:induction false} FixEntriesSound(es: Entries, k: Kind)
    requires ValidEntries(es, k, false)
    ensures ValidEntries(FixEntries(es), k, true) && ValidEntries(FixEntries(es), k, false)
    ensures k.Array? ==> Elements(FixEntries(es)) == Elements(es)
    ensures k.Object? ==> Members(FixEntries(es)) == Members(es)
    ensures ValidEntries(es, k, true) ==> FixEntries(es) == es
    decreases es, 3
  {
    FixEntrySound(es.entry, k);
    if es.More? {
      FixEntriesSound(es.rest, k);
    }
  }

  /** The meaning of the repair: whatever lenient text it is given, it returns
      the strict JSON text of the same tree, with the same value. */
  lemma RepairPreservesMeaning(d: Document)
    requires Lenient(d)
    ensures Repair(Text(d)) == Text(FixDocument(d))
    ensures Strict(FixDocument(d))
    ensures Valid(FixDocument(d).root, false) && Meaning(FixDocument(d).root) == Meaning(d.root)
  {
    RepairFixes(d);
    FixSound(d.root);
  }

  lemma {:induction false} StrictIsLenient(j: Json)
    requires Valid(j, true)
    ensures Valid(j, false)
    decreases j, 1
  {
    if j.Container? {
      StrictEntriesAreLenient(j.entries, j.kind);
    }
  }

  lemma {:induction false} StrictEntriesAreLenient(es: Entries, k: Kind)
    requires ValidEntries(es, k, true)
    ensures ValidEntries(es, k, false)
    decreases es, 2
  {
    assert ValidEntry(es.entry, k, true);
    StrictIsLenient(es.entry.value);
    if es.More? {
      StrictEntriesAreLenient(es.rest, k);
    }
  }

  /** Every JSON text is left exactly as it is. */
  lemma RepairKeepsJson(d: Document)
    requires Strict(d)
    ensures Repair(Text(d)) == Text(d)
  {
    StrictIsLenient(d.root);
    RepairFixes(d);
    FixSound(d.root);
  }
}
