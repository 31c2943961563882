/** What the repair accepts: a text has one tree, and the repair of a text is
    JSON exactly when the text is leniently written JSON (RFC 8259, sections 2
    to 7; crates/episcience-api/src/clients/claude_cli.rs). */
module JsonReading {
  import opened Base
  import opened RepairJson
  import opened JsonText

  // ── Where one part of a text ends ───────────────────────────────────────

  predicate StopsWs(x: string) {
    x == "" || !IsWs(x[0])
  }

  predicate StopsPlain(x: string) {
    x == "" || !IsPlain(x[0])
  }

  lemma HeadOf(a: string, b: string)
    ensures a == "" ==> a + b == b
    ensures a != "" ==> a + b != "" && (a + b)[0] == a[0]
  {
    if a == "" {
      assert a + b == b;
    }
  }

  lemma {:induction false} WsSplit(w1: string, x1: string, w2: string, x2: string)
    requires AllWs(w1) && AllWs(w2) && StopsWs(x1) && StopsWs(x2) && w1 + x1 == w2 + x2
    ensures w1 == w2 && x1 == x2
    decreases |w1|
  {
    if w1 != "" && w2 != "" {
      assert w1[0] == (w1 + x1)[0] == w2[0];
      assert (w1 + x1)[1..] == w1[1..] + x1 && (w2 + x2)[1..] == w2[1..] + x2;
      WsSplit(w1[1..], x1, w2[1..], x2);
      assert w1 == [w1[0]] + w1[1..] && w2 == [w2[0]] + w2[1..];
    } else {
      WsMeetsStop(w1, x1, w2, x2);
      assert w1 + x1 == x1 && w2 + x2 == x2;
    }
  }

  lemma WsMeetsStop(w1: string, x1: string, w2: string, x2: string)
    requires AllWs(w1) && AllWs(w2) && StopsWs(x1) && StopsWs(x2) && w1 + x1 == w2 + x2
    requires w1 == "" || w2 == ""
    ensures w1 == "" && w2 == ""
  {
    HeadOf(w1, x1);
    HeadOf(w2, x2);
  }

  predicate AllPlain(t: string) {
    forall k :: 0 <= k < |t| ==> IsPlain(t[k])
  }

  lemma {:induction false} PlainSplit(t1: string, x1: string, t2: string, x2: string)
    requires AllPlain(t1) && AllPlain(t2) && StopsPlain(x1) && StopsPlain(x2) && t1 + x1 == t2 + x2
    ensures t1 == t2 && x1 == x2
    decreases |t1|
  {
    hide IsPlain;
    if t1 != "" && t2 != "" {
      assert t1[0] == (t1 + x1)[0] == t2[0];
      assert (t1 + x1)[1..] == t1[1..] + x1 && (t2 + x2)[1..] == t2[1..] + x2;
      PlainSplit(t1[1..], x1, t2[1..], x2);
      assert t1 == [t1[0]] + t1[1..] && t2 == [t2[0]] + t2[1..];
    } else {
      PlainMeetsStop(t1, x1, t2, x2);
      assert t1 + x1 == x1 && t2 + x2 == x2;
    }
  }

  lemma PlainMeetsStop(t1: string, x1: string, t2: string, x2: string)
    requires AllPlain(t1) && AllPlain(t2) && StopsPlain(x1) && StopsPlain(x2) && t1 + x1 == t2 + x2
    requires t1 == "" || t2 == ""
    ensures t1 == "" && t2 == ""
  {
    hide IsPlain;
    HeadOf(t1, x1);
    HeadOf(t2, x2);
  }

  lemma Unshift(c: char, x: string, d: char, y: string)
    requires [c] + x == [d] + y
    ensures c == d && x == y
  {
    assert ([c] + x)[0] == c && ([d] + y)[0] == d;
    assert ([c] + x)[1..] == x && ([d] + y)[1..] == y;
  }

  // ── One text, one tree ──────────────────────────────────────────────────

  lemma ItemSplit(i1: StrItem, x1: string, i2: StrItem, x2: string)
    requires ValidItem(i1, false) && ValidItem(i2, false) && EmitItem(i1, x1) == EmitItem(i2, x2)
    ensures i1 == i2 && x1 == x2
  {
    hide IsHex, IsControl;
    match (i1, i2) {
      case (Raw(c), Raw(d)) => Unshift(c, x1, d, x2);
      case (Esc(c), Esc(d)) =>
        Unshift('\\', [c] + x1, '\\', [d] + x2);
        Unshift(c, x1, d, x2);
      case (Unicode(g), Unicode(h)) =>
        Unshift('\\', ['u'] + (g + x1), '\\', ['u'] + (h + x2));
        Unshift('u', g + x1, 'u', h + x2);
        assert g == (g + x1)[..4] && h == (h + x2)[..4];
        assert x1 == (g + x1)[4..] && x2 == (h + x2)[4..];
      case (Raw(c), Esc(d)) => Unshift(c, x1, '\\', [d] + x2);
      case (Raw(c), Unicode(h)) => Unshift(c, x1, '\\', ['u'] + (h + x2));
      case (Esc(c), Raw(d)) => Unshift('\\', [c] + x1, d, x2);
      case (Unicode(g), Raw(d)) => Unshift('\\', ['u'] + (g + x1), d, x2);
      case (Esc(c), Unicode(h)) =>
        Unshift('\\', [c] + x1, '\\', ['u'] + (h + x2));
        Unshift(c, x1, 'u', h + x2);
      case (Unicode(g), Esc(d)) =>
        Unshift('\\', ['u'] + (g + x1), '\\', [d] + x2);
        Unshift('u', g + x1, d, x2);
    }
  }

  lemma ItemStart(i: StrItem, x: string)
    requires ValidItem(i, false)
    ensures EmitItem(i, x) != "" && EmitItem(i, x)[0] != '"'
  {
  }

  lemma {:induction false} ItemsSplit(s1: seq<StrItem>, x1: string, s2: seq<StrItem>, x2: string)
    requires ValidItems(s1, false) && ValidItems(s2, false)
    requires EmitItems(s1, ['"'] + x1) == EmitItems(s2, ['"'] + x2)
    ensures s1 == s2 && x1 == x2
    decreases |s1|
  {
    hide EmitItem, ValidItem;
    if s1 == [] && s2 == [] {
      Unshift('"', x1, '"', x2);
    } else if s1 == [] {
      ItemStart(s2[0], EmitItems(s2[1..], ['"'] + x2));
    } else if s2 == [] {
      ItemStart(s1[0], EmitItems(s1[1..], ['"'] + x1));
    } else {
      ItemSplit(s1[0], EmitItems(s1[1..], ['"'] + x1), s2[0], EmitItems(s2[1..], ['"'] + x2));
      ItemsSplit(s1[1..], x1, s2[1..], x2);
      assert s1 == [s1[0]] + s1[1..] && s2 == [s2[0]] + s2[1..];
    }
  }

  /** What follows an entry and its whitespace, up to the closer and beyond. */
  function Tail(es: Entries, close: string): string {
    match es
    case Last(_, _, _, None) => close
    case Last(_, _, _, Some(ws)) => [','] + (ws + close)
    case More(_, _, _, more) => [','] + EmitEntries(more, close)
  }

  lemma EntriesShape(es: Entries, close: string)
    ensures EmitEntries(es, close) == es.lead + EmitEntry(es.entry, es.trail + Tail(es, close))
  {
  }

  lemma EntryStarts(e: Entry, k: Kind, rest: string)
    requires ValidEntry(e, k, false)
    ensures EmitEntry(e, rest) != "" && !IsWs(EmitEntry(e, rest)[0]) && EmitEntry(e, rest)[0] !in ",:]}"
  {
    hide Emit, EmitItems, Valid;
    if e.Element? {
      ValueStarts(e.value, rest);
    }
  }

  lemma TailStops(es: Entries, k: Kind, x: string)
    ensures var tail := Tail(es, [Closer(k)] + x); tail != "" && tail[0] in ",]}" && StopsWs(tail)
  {
  }

  lemma WsThenStop(ws: string, tail: string)
    requires AllWs(ws) && tail != "" && !IsPlain(tail[0])
    ensures StopsPlain(ws + tail)
  {
    if ws != "" {
      assert (ws + tail)[0] == ws[0];
    } else {
      assert ws + tail == tail;
    }
  }

  lemma {:induction false} JsonSplit(j1: Json, x1: string, j2: Json, x2: string)
    requires Valid(j1, false) && Valid(j2, false) && StopsPlain(x1) && StopsPlain(x2)
    requires Emit(j1, x1) == Emit(j2, x2)
    ensures j1 == j2 && x1 == x2
    decreases j1, 1
  {
    hide EmitEntries, EmitItems, IsScalar, IsPlain, IsWs, ValidEntries;
    ValueStarts(j1, x1);
    ValueStarts(j2, x2);
    StartsTellKinds(j1, j2);
    match j1 {
      case Scalar(t) =>
        ScalarsArePlain(t);
        ScalarsArePlain(j2.text);
        PlainSplit(t, x1, j2.text, x2);
      case Str(s) =>
        Unshift('"', EmitItems(s, ['"'] + x1), '"', EmitItems(j2.items, ['"'] + x2));
        ItemsSplit(s, x1, j2.items, x2);
      case Empty(k, ws) =>
        if j2.Empty? {
          Unshift(Opener(k), ws + ([Closer(k)] + x1), Opener(k), j2.ws + ([Closer(k)] + x2));
          CloserStops(k, x1);
          CloserStops(k, x2);
          WsSplit(ws, [Closer(k)] + x1, j2.ws, [Closer(k)] + x2);
          Unshift(Closer(k), x1, Closer(k), x2);
        } else {
          EmptyIsNoContainer(k, ws, x1, j2.entries, x2);
        }
      case Container(k, es) =>
        if j2.Container? {
          Unshift(Opener(k), EmitEntries(es, [Closer(k)] + x1), Opener(k), EmitEntries(j2.entries, [Closer(k)] + x2));
          EntriesSplit(es, x1, j2.entries, x2, k);
        } else {
          EmptyIsNoContainer(k, j2.ws, x2, es, x1);
        }
    }
  }

  lemma CloserStops(k: Kind, x: string)
    ensures StopsWs([Closer(k)] + x)
  {
  }

  lemma StartsTellKinds(j1: Json, j2: Json)
    requires Valid(j1, false) && Valid(j2, false) && StartOf(j1) == StartOf(j2)
    ensures j1.Scalar? <==> j2.Scalar?
    ensures j1.Str? <==> j2.Str?
    ensures (j1.Empty? || j1.Container?) && (j2.Empty? || j2.Container?) ==> j1.kind == j2.kind
  {
    hide IsScalar;
    if j1.Scalar? {
      ScalarIsPlain(j1.text);
    }
    if j2.Scalar? {
      ScalarIsPlain(j2.text);
    }
  }

  lemma EmptyIsNoContainer(k: Kind, ws: string, x: string, es: Entries, y: string)
    requires AllWs(ws) && ValidEntries(es, k, false)
    ensures Emit(Empty(k, ws), x) != Emit(Container(k, es), y)
  {
    hide EmitEntries, ValidEntries;
    var inside, entries := ws + ([Closer(k)] + x), EmitEntries(es, [Closer(k)] + y);
    EntryDoesNotClose(es, k, [Closer(k)] + y);
    ClosesPastWs(ws, [Closer(k)] + x);
    assert Closes([Closer(k)] + x);
    assert ([Opener(k)] + inside)[1..] == inside && ([Opener(k)] + entries)[1..] == entries;
  }

  lemma {:induction false} EntrySplit(e1: Entry, x1: string, e2: Entry, x2: string, k: Kind)
    requires ValidEntry(e1, k, false) && ValidEntry(e2, k, false) && StopsPlain(x1) && StopsPlain(x2)
    requires EmitEntry(e1, x1) == EmitEntry(e2, x2)
    ensures e1 == e2 && x1 == x2
    decreases e1, 2
  {
    hide Emit, EmitItems, Valid, IsPlain;
    if e1.Element? {
      JsonSplit(e1.value, x1, e2.value, x2);
    } else {
      var m1, m2 := [':'] + (e1.after + Emit(e1.value, x1)), [':'] + (e2.after + Emit(e2.value, x2));
      Unshift('"', EmitItems(e1.name, ['"'] + (e1.before + m1)), '"', EmitItems(e2.name, ['"'] + (e2.before + m2)));
      ItemsSplit(e1.name, e1.before + m1, e2.name, e2.before + m2);
      WsSplit(e1.before, m1, e2.before, m2);
      Unshift(':', e1.after + Emit(e1.value, x1), ':', e2.after + Emit(e2.value, x2));
      ValueStarts(e1.value, x1);
      ValueStarts(e2.value, x2);
      WsSplit(e1.after, Emit(e1.value, x1), e2.after, Emit(e2.value, x2));
      JsonSplit(e1.value, x1, e2.value, x2);
    }
  }

  lemma {:induction false} EntriesSplit(es1: Entries, x1: string, es2: Entries, x2: string, k: Kind)
    requires ValidEntries(es1, k, false) && ValidEntries(es2, k, false)
    requires EmitEntries(es1, [Closer(k)] + x1) == EmitEntries(es2, [Closer(k)] + x2)
    ensures es1 == es2 && x1 == x2
    decreases es1, 3
  {
    hide EmitEntries, EmitEntry, ValidEntry, IsPlain, Tail;
    var c1, c2 := [Closer(k)] + x1, [Closer(k)] + x2;
    var t1, t2 := Tail(es1, c1), Tail(es2, c2);
    EntriesShape(es1, c1);
    EntriesShape(es2, c2);
    EntryStarts(es1.entry, k, es1.trail + t1);
    EntryStarts(es2.entry, k, es2.trail + t2);
    WsSplit(es1.lead, EmitEntry(es1.entry, es1.trail + t1), es2.lead, EmitEntry(es2.entry, es2.trail + t2));
    TailStops(es1, k, x1);
    TailStops(es2, k, x2);
    TailIsNotPlain(t1);
    TailIsNotPlain(t2);
    WsThenStop(es1.trail, t1);
    WsThenStop(es2.trail, t2);
    EntrySplit(es1.entry, es1.trail + t1, es2.entry, es2.trail + t2, k);
    WsSplit(es1.trail, t1, es2.trail, t2);
    TailSplit(es1, x1, es2, x2, k);
  }

  lemma TailIsNotPlain(tail: string)
    requires tail != "" && tail[0] in ",]}"
    ensures !IsPlain(tail[0])
  {
  }

  lemma {:induction false} TailSplit(es1: Entries, x1: string, es2: Entries, x2: string, k: Kind)
    requires ValidEntries(es1, k, false) && ValidEntries(es2, k, false)
    requires es1.lead == es2.lead && es1.entry == es2.entry && es1.trail == es2.trail
    requires Tail(es1, [Closer(k)] + x1) == Tail(es2, [Closer(k)] + x2)
    ensures es1 == es2 && x1 == x2
    decreases es1, 2
  {
    hide EmitEntries, ValidEntry;
    var c1, c2 := [Closer(k)] + x1, [Closer(k)] + x2;
    CloserStops(k, x1);
    CloserStops(k, x2);
    HeadOf([Closer(k)], x1);
    HeadOf([Closer(k)], x2);
    match (es1, es2) {
      case (Last(_, _, _, None), Last(_, _, _, None)) => Unshift(Closer(k), x1, Closer(k), x2);
      case (Last(_, _, _, Some(v)), Last(_, _, _, Some(w))) =>
        Unshift(',', v + c1, ',', w + c2);
        WsSplit(v, c1, w, c2);
        Unshift(Closer(k), x1, Closer(k), x2);
      case (More(_, _, _, more1), More(_, _, _, more2)) =>
        Unshift(',', EmitEntries(more1, c1), ',', EmitEntries(more2, c2));
        EntriesSplit(more1, x1, more2, x2, k);
      case (Last(_, _, _, Some(v)), More(_, _, _, more2)) =>
        Unshift(',', v + c1, ',', EmitEntries(more2, c2));
        CommaIsNoEntry(v, k, x1, more2, x2);
      case (More(_, _, _, more1), Last(_, _, _, Some(w))) =>
        Unshift(',', EmitEntries(more1, c1), ',', w + c2);
        CommaIsNoEntry(w, k, x2, more1, x1);
      case (Last(_, _, _, None), _) =>
      case (_, Last(_, _, _, None)) =>
    }
  }

  lemma CommaIsNoEntry(ws: string, k: Kind, x: string, es: Entries, y: string)
    requires AllWs(ws) && ValidEntries(es, k, false)
    ensures ws + ([Closer(k)] + x) != EmitEntries(es, [Closer(k)] + y)
  {
    hide EmitEntries, ValidEntries;
    EntryDoesNotClose(es, k, [Closer(k)] + y);
    ClosesPastWs(ws, [Closer(k)] + x);
    assert Closes([Closer(k)] + x);
  }

  /** A text, JSON or leniently written, has one tree, so one meaning. */
  lemma OneTextOneTree(d1: Document, d2: Document)
    requires Lenient(d1) && Lenient(d2) && Text(d1) == Text(d2)
    ensures d1 == d2
  {
    hide Emit, Valid, IsPlain;
    ValueStarts(d1.root, d1.trail);
    ValueStarts(d2.root, d2.trail);
    WsSplit(d1.lead, Emit(d1.root, d1.trail), d2.lead, Emit(d2.root, d2.trail));
    WsIsNotPlain(d1.trail);
    WsIsNotPlain(d2.trail);
    JsonSplit(d1.root, d1.trail, d2.root, d2.trail);
  }

  lemma WsIsNotPlain(ws: string)
    requires AllWs(ws)
    ensures StopsPlain(ws)
  {
  }

  // ── From the repaired text back to the given one ────────────────────────

  lemma {:induction false} ClosesShape(text: string) returns (ws: string, closer: char, rest: string)
    requires Closes(text)
    ensures AllWs(ws) && closer in {'}', ']'} && text == ws + ([closer] + rest)
    decreases |text|
  {
    if IsWs(text[0]) {
      var w;
      w, closer, rest := ClosesShape(text[1..]);
      ws := [text[0]] + w;
      assert text == [text[0]] + text[1..];
    } else {
      ws, closer, rest := "", text[0], text[1..];
      assert text == [closer] + rest;
    }
  }

  /** What the scanner remembers after a character it kept outside strings. */
  function LastKept(last: Option<char>, c: char): Option<char> {
    if c == '"' then last else Some(c)
  }

  /** Whatever the scanner wrote up to a first significant character was in the
      text too, but for one trailing comma before a closer. */
  lemma {:induction false} OutHead(last: Option<char>, text: string, ws: string, c: char, out: string)
    returns (before: string, dropped: bool, after: string, rest: string)
    requires Scan(Outside, last, text) == ws + ([c] + out) && AllWs(ws) && !IsWs(c)
    ensures AllWs(before) && AllWs(after) && before + after == ws
    ensures !dropped ==> text == ws + ([c] + rest)
    ensures dropped ==> EndsValue(last) && c in {'}', ']'} && text == before + ([','] + (after + ([c] + rest)))
    ensures Scan(Next(Outside, c), LastKept(last, c), rest) == out
    decreases |text|
  {
    hide Scan, Closes, EndsValue;
    NothingToScan(last);
    var x, tail := text[0], text[1..];
    assert text == [x] + tail;
    ScanStep(Outside, last, x, tail);
    if IsWs(x) {
      var seen := Scan(Outside, last, tail);
      assert ws != "" by {
        assert ([x] + seen)[0] == x;
      }
      assert ws == [ws[0]] + ws[1..];
      assert ws + ([c] + out) == [ws[0]] + (ws[1..] + ([c] + out));
      Unshift(x, seen, ws[0], ws[1..] + ([c] + out));
      var b;
      b, dropped, after, rest := OutHead(last, tail, ws[1..], c, out);
      before := [x] + b;
    } else if x == ',' && Closes(tail) && EndsValue(last) {
      var closer;
      dropped, before := true, "";
      after, closer, rest := ClosesShape(tail);
      ScanWs(last, after, [closer] + rest);
      ScanStructural(last, closer, rest);
      WsSplit(ws, [c] + out, after, [closer] + Scan(Outside, Some(closer), rest));
      Unshift(c, out, closer, Scan(Outside, Some(closer), rest));
    } else {
      var seen := Scan(Next(Outside, x), LastAfter(Outside, last, x, tail), tail);
      assert "" + ([x] + seen) == [x] + seen;
      WsSplit(ws, [c] + out, "", [x] + seen);
      Unshift(c, out, x, seen);
      before, dropped, after, rest := "", false, "", tail;
      assert ws + ([c] + rest) == [c] + rest;
    }
  }

  /** Whitespace before something that is not a closer was all there. */
  lemma LeadOf(last: Option<char>, text: string, ws: string, out: string) returns (rest: string)
    requires Scan(Outside, last, text) == ws + out && AllWs(ws)
    requires out != "" && !IsWs(out[0]) && out[0] !in {'}', ']'}
    ensures text == ws + rest && Scan(Outside, last, rest) == out
  {
    hide Scan, EndsValue;
    assert out == [out[0]] + out[1..];
    var before, dropped, after, r := OutHead(last, text, ws, out[0], out[1..]);
    rest := [out[0]] + r;
    ScanWs(last, ws, rest);
    assert (ws + out)[|ws|..] == out && (ws + Scan(Outside, last, rest))[|ws|..] == Scan(Outside, last, rest);
  }

  lemma {:induction false} PlainOf(last: Option<char>, text: string, t: string, out: string) returns (rest: string)
    requires t != "" && AllPlain(t) && Scan(Outside, last, text) == t + out
    ensures text == t + rest && Scan(Outside, Some(t[|t| - 1]), rest) == out
    decreases |t|
  {
    hide Scan, EndsValue;
    assert t + out == "" + ([t[0]] + (t[1..] + out));
    var before, dropped, after, r := OutHead(last, text, "", t[0], t[1..] + out);
    assert text == [t[0]] + r;
    if |t| == 1 {
      rest := r;
      assert t[1..] + out == out;
    } else {
      rest := PlainOf(Some(t[0]), r, t[1..], out);
      assert t == [t[0]] + t[1..];
    }
  }

  lemma InsideHead(last: Option<char>, text: string, c: char, out: string) returns (rest: string)
    requires Scan(Inside, last, text) == [c] + out && c != '"' && c != '\\'
    ensures text == [c] + rest && Scan(Inside, last, rest) == out && !IsControl(c)
  {
    hide Scan, EscapeOf;
    InsideNothing(last);
    var x, tail := text[0], text[1..];
    assert text == [x] + tail;
    ScanStep(Inside, last, x, tail);
    if IsControl(x) {
      EscapeShape(x);
      HeadOf(EscapeOf(x), Scan(Inside, last, tail));
    } else {
      Unshift(x, Scan(Next(Inside, x), LastAfter(Inside, last, x, tail), tail), c, out);
    }
    rest := tail;
  }

  lemma InsideNothing(last: Option<char>)
    ensures Scan(Inside, last, "") == "" && Scan(AfterBackslash, last, "") == ""
  {
  }

  lemma HexOf(last: Option<char>, text: string, h: string, out: string) returns (rest: string)
    requires ValidItem(Unicode(h), false) && Scan(Inside, last, text) == h + out
    ensures text == h + rest && Scan(Inside, last, rest) == out
  {
    hide Scan;
    assert h + out == [h[0]] + ([h[1]] + ([h[2]] + ([h[3]] + out)));
    var r0 := InsideHead(last, text, h[0], [h[1]] + ([h[2]] + ([h[3]] + out)));
    var r1 := InsideHead(last, r0, h[1], [h[2]] + ([h[3]] + out));
    var r2 := InsideHead(last, r1, h[2], [h[3]] + out);
    rest := InsideHead(last, r2, h[3], out);
    assert h + rest == [h[0]] + ([h[1]] + ([h[2]] + ([h[3]] + rest)));
  }

  lemma ItemsNotEmpty(s: seq<StrItem>, x: string)
    requires ValidItems(s, false)
    ensures EmitItems(s, ['"'] + x) != ""
  {
    hide EmitItem;
    if s != [] {
      ItemStart(s[0], EmitItems(s[1..], ['"'] + x));
    }
  }

  /** One spelled character of a string, read back from its strict spelling. */
  lemma ItemOf(last: Option<char>, text: string, i: StrItem, out: string) returns (item: StrItem, rest: string)
    requires ValidItem(i, true) && ValidItem(i, false) && out != "" && Scan(Inside, last, text) == EmitItem(i, out)
    ensures ValidItem(item, false) && FixItem(item) == i
    ensures text == EmitItem(item, rest) && Scan(Inside, last, rest) == out && |rest| < |text|
  {
    hide Scan, EscapeOf, IsHex;
    InsideNothing(last);
    var c, tail := text[0], text[1..];
    assert text == [c] + tail;
    ScanStep(Inside, last, c, tail);
    if IsControl(c) {
      item, rest := Raw(c), tail;
      EscapeIsFixedItem(c, Scan(Inside, last, tail));
      FixedIsValid(c);
      ItemSplit(i, out, FixItem(Raw(c)), Scan(Inside, last, tail));
    } else if c == '\\' {
      item, rest := BackslashOf(last, tail, i, out);
    } else {
      var seen := Scan(Next(Inside, c), LastAfter(Inside, last, c, tail), tail);
      StartsWith(i, out, c, seen);
      item, rest := Raw(c), tail;
      Unshift(c, seen, c, out);
    }
  }

  lemma FixedIsValid(c: char)
    requires IsControl(c)
    ensures ValidItem(FixItem(Raw(c)), false)
  {
    FixItemSound(Raw(c));
  }

  lemma StartsWith(i: StrItem, out: string, c: char, seen: string)
    requires ValidItem(i, false) && EmitItem(i, out) == [c] + seen && c != '\\'
    ensures i == Raw(c) && c != '"' && out == seen
  {
    assert EmitItem(i, out)[0] == c;
    if i.Raw? {
      Unshift(i.c, out, c, seen);
    }
  }

  lemma BackslashOf(last: Option<char>, tail: string, i: StrItem, out: string) returns (item: StrItem, rest: string)
    requires ValidItem(i, true) && ValidItem(i, false) && out != ""
    requires ['\\'] + Scan(AfterBackslash, last, tail) == EmitItem(i, out)
    ensures ValidItem(item, false) && FixItem(item) == i && ['\\'] + tail == EmitItem(item, rest)
    ensures Scan(Inside, last, rest) == out && |rest| <= |tail|
  {
    hide Scan, IsHex;
    InsideNothing(last);
    match i {
      case Raw(c) => Unshift(c, out, '\\', Scan(AfterBackslash, last, tail));
        item, rest := i, tail;
      case Esc(c) =>
        Unshift('\\', Scan(AfterBackslash, last, tail), '\\', [c] + out);
        item, rest := i, tail[1..];
        assert tail == [tail[0]] + rest;
        ScanQuoted(AfterBackslash, last, tail[0], rest);
        Unshift(tail[0], Scan(Inside, last, rest), c, out);
      case Unicode(h) =>
        Unshift('\\', Scan(AfterBackslash, last, tail), '\\', ['u'] + (h + out));
        assert tail == [tail[0]] + tail[1..];
        ScanQuoted(AfterBackslash, last, tail[0], tail[1..]);
        Unshift(tail[0], Scan(Inside, last, tail[1..]), 'u', h + out);
        item := i;
        rest := HexOf(last, tail[1..], h, out);
    }
  }

  lemma {:induction false} ItemsOf(last: Option<char>, text: string, s: seq<StrItem>, out: string)
    returns (items: seq<StrItem>, rest: string)
    requires ValidItems(s, true) && ValidItems(s, false) && Scan(Inside, last, text) == EmitItems(s, ['"'] + out)
    ensures ValidItems(items, false) && FixItems(items) == s
    ensures text == EmitItems(items, ['"'] + rest) && Scan(Outside, Some('"'), rest) == out
    decreases |s|
  {
    hide Scan, EmitItem, ValidItem, FixItem;
    if s == [] {
      items := [];
      rest := QuoteOf(last, text, out);
    } else {
      ItemsNotEmpty(s[1..], out);
      var item, r := ItemOf(last, text, s[0], EmitItems(s[1..], ['"'] + out));
      var more;
      more, rest := ItemsOf(last, r, s[1..], out);
      items := [item] + more;
      assert items[1..] == more;
      assert s == [s[0]] + s[1..];
    }
  }

  /** A closing quote is written only for a closing quote. */
  lemma QuoteOf(last: Option<char>, text: string, out: string) returns (rest: string)
    requires Scan(Inside, last, text) == ['"'] + out
    ensures text == ['"'] + rest && Scan(Outside, Some('"'), rest) == out
  {
    hide Scan, EscapeOf;
    InsideNothing(last);
    var x, tail := text[0], text[1..];
    assert text == [x] + tail;
    ScanStep(Inside, last, x, tail);
    if IsControl(x) {
      EscapeShape(x);
      HeadOf(EscapeOf(x), Scan(Inside, last, tail));
    } else {
      Unshift(x, Scan(Next(Inside, x), LastAfter(Inside, last, x, tail), tail), '"', out);
    }
    rest := tail;
  }

  lemma StringOf(last: Option<char>, text: string, s: seq<StrItem>, out: string) returns (items: seq<StrItem>, rest: string)
    requires ValidItems(s, true) && ValidItems(s, false)
    requires Scan(Outside, last, text) == ['"'] + EmitItems(s, ['"'] + out)
    ensures ValidItems(items, false) && FixItems(items) == s
    ensures text == ['"'] + EmitItems(items, ['"'] + rest) && Scan(Outside, Some('"'), rest) == out
  {
    hide Scan, EmitItems, EndsValue, ValidItem;
    assert Scan(Outside, last, text) == "" + (['"'] + EmitItems(s, ['"'] + out));
    var before, dropped, after, r := OutHead(last, text, "", '"', EmitItems(s, ['"'] + out));
    items, rest := ItemsOf(last, r, s, out);
  }

  lemma {:induction false} JsonOf(last: Option<char>, text: string, j: Json, out: string) returns (tree: Json, rest: string)
    requires Valid(j, true) && Valid(j, false) && Scan(Outside, last, text) == Emit(j, out)
    ensures Valid(tree, false) && Fix(tree) == j
    ensures text == Emit(tree, rest) && Scan(Outside, Some(EndOf(tree)), rest) == out
    decreases j, 1
  {
    hide Scan, EmitItems, EmitEntries, EndsValue, ValidEntries, IsScalar, FixEntries, FixItems;
    match j {
      case Scalar(t) =>
        ScalarsArePlain(t);
        tree := j;
        rest := PlainOf(last, text, t, out);
      case Str(s) =>
        var items;
        items, rest := StringOf(last, text, s, out);
        tree := Str(items);
      case Empty(k, ws) =>
        assert Emit(j, out) == "" + ([Opener(k)] + (ws + ([Closer(k)] + out)));
        var b0, d0, a0, r0 := OutHead(last, text, "", Opener(k), ws + ([Closer(k)] + out));
        OpenersEndNothing(k);
        var b1, d1, a1, r1 := OutHead(Some(Opener(k)), r0, ws, Closer(k), out);
        tree, rest := j, r1;
      case Container(k, es) =>
        assert Emit(j, out) == "" + ([Opener(k)] + EmitEntries(es, [Closer(k)] + out));
        var b0, d0, a0, r0 := OutHead(last, text, "", Opener(k), EmitEntries(es, [Closer(k)] + out));
        OpenersEndNothing(k);
        var entries;
        entries, rest := EntriesOf(Some(Opener(k)), r0, es, k, out);
        tree := Container(k, entries);
    }
  }

  lemma OpenersEndNothing(k: Kind)
    ensures !EndsValue(Some(Opener(k))) && !EndsValue(Some(','))
    ensures !IsWs(Opener(k)) && !IsWs(Closer(k)) && Opener(k) !in {'}', ']', '"'} && Closer(k) != '"'
  {
  }

  lemma {:induction false} EntryOf(last: Option<char>, text: string, e: Entry, k: Kind, out: string)
    returns (entry: Entry, rest: string)
    requires ValidEntry(e, k, true) && ValidEntry(e, k, false) && Scan(Outside, last, text) == EmitEntry(e, out)
    ensures ValidEntry(entry, k, false) && Valid(entry.value, false) && FixEntry(entry) == e
    ensures text == EmitEntry(entry, rest) && Scan(Outside, Some(EndOf(entry.value)), rest) == out
    decreases e, 2
  {
    hide Scan, Emit, EmitItems, EndsValue, Valid, Fix, FixItems;
    match e {
      case Element(v) =>
        var tree;
        tree, rest := JsonOf(last, text, v, out);
        entry := Element(tree);
      case Member(name, before, after, v) =>
        var colon := [':'] + (after + Emit(v, out));
        var items, r0 := StringOf(last, text, name, before + colon);
        var b1, d1, a1, r1 := OutHead(Some('"'), r0, before, ':', after + Emit(v, out));
        ValueStarts(v, out);
        var r2 := LeadOf(Some(':'), r1, after, Emit(v, out));
        var tree;
        tree, rest := JsonOf(Some(':'), r2, v, out);
        entry := Member(items, before, after, tree);
    }
  }

  lemma {:induction false} EntriesOf(last: Option<char>, text: string, es: Entries, k: Kind, out: string)
    returns (entries: Entries, rest: string)
    requires !EndsValue(last) && ValidEntries(es, k, true) && ValidEntries(es, k, false)
    requires Scan(Outside, last, text) == EmitEntries(es, [Closer(k)] + out)
    ensures ValidEntries(entries, k, false) && FixEntries(entries) == es
    ensures text == EmitEntries(entries, [Closer(k)] + rest) && Scan(Outside, Some(Closer(k)), rest) == out
    decreases es, 3
  {
    hide Scan, EmitEntry, EndsValue, ValidEntry, FixEntry;
    var close := [Closer(k)] + out;
    EntriesShape(es, close);
    EntryStarts(es.entry, k, es.trail + Tail(es, close));
    var r0 := LeadOf(last, text, es.lead, EmitEntry(es.entry, es.trail + Tail(es, close)));
    var entry, r1 := EntryOf(last, r0, es.entry, k, es.trail + Tail(es, close));
    OpenersEndNothing(k);
    match es {
      case Last(lead, e, trail, _) =>
        var before, dropped, after, r2 := OutHead(Some(EndOf(entry.value)), r1, trail, Closer(k), out);
        rest := r2;
        entries := if dropped then Last(lead, entry, before, Some(after)) else Last(lead, entry, trail, None);
      case More(lead, e, trail, more) =>
        var before, dropped, after, r2 := OutHead(Some(EndOf(entry.value)), r1, trail, ',', EmitEntries(more, close));
        var others;
        others, rest := EntriesOf(Some(','), r2, more, k, out);
        entries := More(lead, entry, trail, others);
    }
  }

  lemma NotAllWs(ws: string, c: char, x: string)
    requires !IsWs(c)
    ensures !AllWs(ws + ([c] + x))
  {
    assert (ws + ([c] + x))[|ws|] == c;
  }

  /** Trailing whitespace was all there. */
  lemma {:induction false} TrailOf(last: Option<char>, text: string)
    requires AllWs(Scan(Outside, last, text))
    ensures Scan(Outside, last, text) == text
    decreases |text|
  {
    hide Scan, Closes, EndsValue;
    NothingToScan(last);
    if text != "" {
      var x, tail := text[0], text[1..];
      assert text == [x] + tail;
      ScanStep(Outside, last, x, tail);
      if x == ',' && Closes(tail) && EndsValue(last) {
        var ws, closer, rest := ClosesShape(tail);
        HeadOf("", Scan(Outside, last, tail));
        ScanWs(last, ws, [closer] + rest);
        ScanStructural(last, closer, rest);
        NotAllWs(ws, closer, Scan(Outside, Some(closer), rest));
      } else {
        assert Scan(Outside, last, text)[0] == x;
        assert Scan(Outside, last, text)[1..] == Scan(Outside, last, tail);
        TrailOf(last, tail);
      }
    }
  }

  lemma GivenOf(text: string, d: Document) returns (given: Document)
    requires Strict(d) && Repair(text) == Text(d)
    ensures Lenient(given) && Text(given) == text && FixDocument(given) == d
  {
    hide Emit, Valid, Fix;
    StrictIsLenient(d.root);
    ValueStarts(d.root, d.trail);
    var r0 := LeadOf(None, text, d.lead, Emit(d.root, d.trail));
    var tree, r1 := JsonOf(None, r0, d.root, d.trail);
    TrailOf(Some(EndOf(tree)), r1);
    given := Document(d.lead, tree, r1);
  }

  ghost predicate IsJson(text: string) {
    exists d :: Strict(d) && Text(d) == text
  }

  ghost predicate IsLenientJson(text: string) {
    exists d :: Lenient(d) && Text(d) == text
  }

  /** The repair makes JSON of exactly the leniently written JSON: it rescues
      every such text and never turns anything else into JSON. */
  lemma RepairsExactlyLenientJson(text: string)
    ensures IsJson(Repair(text)) <==> IsLenientJson(text)
  {
    hide Strict, Lenient, Repair, Text;
    if IsJson(Repair(text)) {
      var d :| Strict(d) && Text(d) == Repair(text);
      var given := GivenOf(text, d);
    }
    if IsLenientJson(text) {
      var d :| Lenient(d) && Text(d) == text;
      RepairPreservesMeaning(d);
    }
  }

  /** So the meaning of a text is well defined, and the repair keeps it: when a
      text and its repair are both read, they mean the same value. */
  lemma RepairMeansTheSame(text: string, d: Document, repaired: Document)
    requires Lenient(d) && Text(d) == text && Lenient(repaired) && Text(repaired) == Repair(text)
    ensures Meaning(repaired.root) == Meaning(d.root)
  {
    hide Repair, Text, Valid, Fix;
    RepairPreservesMeaning(d);
    OneTextOneTree(repaired, FixDocument(d));
  }
}
