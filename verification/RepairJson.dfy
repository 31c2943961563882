/** The near-JSON repair of the CLI provider
    (crates/episcience-api/src/clients/claude_cli.rs): the scanner, its
    specification as an edit script, and what it does to arbitrary text. */
module RepairJson {
  import opened Base

  predicate IsWs(c: char) {
    c == ' ' || c == '\t' || c == '\n' || c == '\r'
  }

  predicate IsControl(c: char) {
    c as int < 0x20
  }

  /** Does the first non-whitespace character, if any, close a container? */
  predicate Closes(rest: string) {
    if rest == [] then false
    else if IsWs(rest[0]) then Closes(rest[1..])
    else rest[0] == '}' || rest[0] == ']'
  }

  /** The last significant character before a comma does not end a value. */
  predicate EndsValue(last: Option<char>) {
    last.Some? && last.value !in {'{', '[', ',', ':'}
  }

  function HexDigit(n: int): char
    requires 0 <= n < 16
  {
    "0123456789abcdef"[n]
  }

  /** The escape the repair writes for a raw control character. */
  function EscapeOf(c: char): string
    requires IsControl(c)
  {
    if c == '\n' then "\\n"
    else if c == '\r' then "\\r"
    else if c == '\t' then "\\t"
    else "\\u00" + [HexDigit(c as int / 16), HexDigit(c as int % 16)]
  }

  /** The escapes the code writes, for U+0000 to U+001F and nothing else. */
  lemma EscapesAre(c: char)
    ensures IsControl(c) <==> c as int <= 0x1F
    ensures c == '\n' ==> EscapeOf(c) == "\\n"
    ensures c == '\r' ==> EscapeOf(c) == "\\r"
    ensures c == '\t' ==> EscapeOf(c) == "\\t"
    ensures IsControl(c) && c !in "\n\r\t" ==>
      EscapeOf(c) == "\\u00" + [if c as int < 0x10 then '0' else '1', "0123456789abcdef"[c as int % 0x10]]
  {
  }

  // ── Where a position is with respect to string literals ─────────────────

  datatype Place = Outside | Inside | AfterBackslash

  function Next(place: Place, c: char): Place {
    match place
    case Outside => if c == '"' then Inside else Outside
    case Inside => if c == '\\' then AfterBackslash else if c == '"' then Outside else Inside
    case AfterBackslash => Inside
  }

  function PlaceAfter(place: Place, text: string): Place
    decreases |text|
  {
    if text == [] then place else PlaceAfter(Next(place, text[0]), text[1..])
  }

  lemma {:induction false} PlaceAfterConcat(place: Place, a: string, b: string)
    ensures PlaceAfter(place, a + b) == PlaceAfter(PlaceAfter(place, a), b)
    decreases |a|
  {
    if a == [] {
      assert a + b == b;
    } else {
      assert (a + b)[1..] == a[1..] + b;
      PlaceAfterConcat(Next(place, a[0]), a[1..], b);
    }
  }

  // ── The repair as an edit script ────────────────────────────────────────

  datatype Edit = Copy(c: char) | DropComma | Escape(c: char)

  function Before(e: Edit): string {
    match e
    case Copy(c) => [c]
    case DropComma => ","
    case Escape(c) => [c]
  }

  function After(e: Edit): string {
    match e
    case Copy(c) => [c]
    case DropComma => ""
    case Escape(c) => if IsControl(c) then EscapeOf(c) else [c]
  }

  function BeforeAll(es: seq<Edit>): string {
    if es == [] then "" else Before(es[0]) + BeforeAll(es[1..])
  }

  function AfterAll(es: seq<Edit>): string {
    if es == [] then "" else After(es[0]) + AfterAll(es[1..])
  }

  function EditOf(place: Place, last: Option<char>, c: char, rest: string): Edit {
    match place
    case Outside => if c == ',' && Closes(rest) && EndsValue(last) then DropComma else Copy(c)
    case Inside => if IsControl(c) then Escape(c) else Copy(c)
    case AfterBackslash => Copy(c)
  }

  /** The last significant character after `c` (a closed string counts as its
      closing quote; a dropped comma does not count). */
  function LastAfter(place: Place, last: Option<char>, c: char, rest: string): Option<char> {
    match place
    case Outside =>
      if c == '"' || IsWs(c) then last
      else if c == ',' then (if EditOf(place, last, c, rest).DropComma? then last else Some(c))
      else Some(c)
    case Inside => if c == '"' then Some('"') else last
    case AfterBackslash => last
  }

  function Script(place: Place, last: Option<char>, text: string): seq<Edit>
    decreases |text|
  {
    if text == [] then []
    else
      [EditOf(place, last, text[0], text[1..])]
      + Script(Next(place, text[0]), LastAfter(place, last, text[0], text[1..]), text[1..])
  }

  function Repair(text: string): string {
    AfterAll(Script(Outside, None, text))
  }

  // ── The scanner ─────────────────────────────────────────────────────────

  method StartsCloser(text: string, from: nat) returns (closes: bool)
    requires from <= |text|
    ensures closes <==> Closes(text[from..])
  {
    var j := from;
    while j < |text| && IsWs(text[j])
      invariant from <= j <= |text|
      invariant Closes(text[j..]) == Closes(text[from..])
    {
      assert text[j..][1..] == text[j + 1..];
      j := j + 1;
    }
    closes := j < |text| && (text[j] == '}' || text[j] == ']');
  }

  function PlaceOf(inString: bool, escaped: bool): Place {
    if !inString then Outside else if escaped then AfterBackslash else Inside
  }

  method RepairText(text: string) returns (out: string)
    ensures out == Repair(text)
  {
    hide Script, AfterAll, Closes, EscapeOf;
    out := "";
    var inString, escaped := false, false;
    var lastSig: Option<char> := None;
    var i := 0;
    while i < |text|
      invariant 0 <= i <= |text|
      invariant escaped ==> inString
      invariant Repair(text) == out + AfterAll(Script(PlaceOf(inString, escaped), lastSig, text[i..]))
    {
      var c := text[i];
      ghost var place, last := PlaceOf(inString, escaped), lastSig;
      ghost var edit := EditOf(place, last, c, text[i + 1..]);
      OneStep(text, i, place, last, out);
      ghost var wasOut := out;
      if inString {
        if escaped {
          escaped := false;
          out := out + [c];
        } else if c == '\\' {
          escaped := true;
          out := out + [c];
        } else if c == '"' {
          inString := false;
          lastSig := Some('"');
          out := out + [c];
        } else if IsControl(c) {
          out := out + EscapeOf(c);
        } else {
          out := out + [c];
        }
      } else if c == '"' {
        inString := true;
        out := out + [c];
      } else if c == ',' {
        var closes := StartsCloser(text, i + 1);
        var afterValue := match lastSig
          case None => false
          case Some(s) => s != '{' && s != '[' && s != ',' && s != ':';
        if !(closes && afterValue) {
          out := out + [c];
          lastSig := Some(c);
        }
      } else {
        if !IsWs(c) {
          lastSig := Some(c);
        }
        out := out + [c];
      }
      assert out == wasOut + After(edit);
      i := i + 1;
    }
    NothingLeft(PlaceOf(inString, escaped), lastSig, text[i..]);
  }

  lemma NothingLeft(place: Place, last: Option<char>, rest: string)
    requires rest == []
    ensures AfterAll(Script(place, last, rest)) == []
  {
  }

  lemma OneStep(text: string, i: nat, place: Place, last: Option<char>, out: string)
    requires i < |text|
    requires Repair(text) == out + AfterAll(Script(place, last, text[i..]))
    ensures Repair(text) == (out + After(EditOf(place, last, text[i], text[i + 1..])))
      + AfterAll(Script(Next(place, text[i]), LastAfter(place, last, text[i], text[i + 1..]), text[i + 1..]))
  {
    assert text[i..][1..] == text[i + 1..];
    ScriptUnfolds(place, last, text[i..]);
  }

  lemma ScriptUnfolds(place: Place, last: Option<char>, text: string)
    requires text != []
    ensures AfterAll(Script(place, last, text))
         == After(EditOf(place, last, text[0], text[1..]))
          + AfterAll(Script(Next(place, text[0]), LastAfter(place, last, text[0], text[1..]), text[1..]))
  {
    var s := Script(place, last, text);
    assert s[1..] == Script(Next(place, text[0]), LastAfter(place, last, text[0], text[1..]), text[1..]);
  }

  // ── On arbitrary text: what the repair changes ──────────────────────────

  /** The last significant character of a text, read from a place with an
      earlier one in mind: whitespace does not count, and of a string only its
      closing quote does. */
  function LastSignificant(place: Place, last: Option<char>, text: string): Option<char>
    decreases |text|
  {
    if text == [] then last
    else
      var c := text[0];
      var seen := if (place.Outside? && c != '"' && !IsWs(c)) || (place.Inside? && c == '"') then Some(c) else last;
      LastSignificant(Next(place, c), seen, text[1..])
  }

  lemma {:induction false} LastSignificantConcat(place: Place, last: Option<char>, a: string, b: string)
    ensures LastSignificant(place, last, a + b) == LastSignificant(PlaceAfter(place, a), LastSignificant(place, last, a), b)
    decreases |a|
  {
    if a == [] {
      assert a + b == b;
    } else {
      assert (a + b)[1..] == a[1..] + b;
      var c := a[0];
      var seen := if (place.Outside? && c != '"' && !IsWs(c)) || (place.Inside? && c == '"') then Some(c) else last;
      LastSignificantConcat(Next(place, c), seen, a[1..], b);
    }
  }

  /** The k-th edit is the one its place calls for. Both texts are at the same
      place before it. A control character is escaped exactly when it is inside
      a string, and a comma is dropped exactly when it is outside strings,
      follows a value in the text kept so far, and what follows it in the input
      closes a container. Everything else is copied. */
  ghost predicate LicensedAt(place: Place, last: Option<char>, es: seq<Edit>, k: nat)
    requires k < |es|
  {
    var kept := AfterAll(es[..k]);
    var here := PlaceAfter(place, kept);
    && PlaceAfter(place, BeforeAll(es[..k])) == here
    && (es[k].Escape? <==> here == Inside && IsControl(Before(es[k])[0]))
    && (es[k].DropComma? <==>
          here == Outside && Before(es[k]) == "," && EndsValue(LastSignificant(place, last, kept)) && Closes(BeforeAll(es[k + 1..])))
  }

  ghost predicate Licensed(place: Place, last: Option<char>, es: seq<Edit>) {
    forall k :: 0 <= k < |es| ==> LicensedAt(place, last, es, k)
  }

  lemma EscapeStaysInside(c: char)
    requires IsControl(c)
    ensures PlaceAfter(Inside, EscapeOf(c)) == Inside
    ensures EscapeOf(c) != []
    ensures forall k :: 0 <= k < |EscapeOf(c)| ==> !IsControl(EscapeOf(c)[k]) && EscapeOf(c)[k] != '"'
  {
    var e := EscapeOf(c);
    assert e[1..][1..] == e[2..];
    assert PlaceAfter(Inside, e) == PlaceAfter(AfterBackslash, e[1..]) == PlaceAfter(Inside, e[2..]);
    PlainStaysInside(e[2..]);
  }

  lemma {:induction false} PlainStaysInside(s: string)
    requires forall k :: 0 <= k < |s| ==> s[k] != '"' && s[k] != '\\'
    ensures PlaceAfter(Inside, s) == Inside
  {
    if s != [] {
      PlainStaysInside(s[1..]);
    }
  }

  lemma {:induction false} PlaceOfEdit(place: Place, e: Edit)
    requires e.DropComma? ==> place == Outside
    requires e.Escape? ==> place == Inside && IsControl(e.c)
    ensures PlaceAfter(place, Before(e)) == PlaceAfter(place, After(e))
    ensures Before(e) != [] ==> PlaceAfter(place, Before(e)) == Next(place, Before(e)[0])
  {
    assert Before(e)[1..] == [];
    if e.Escape? {
      EscapeStaysInside(e.c);
    }
  }

  lemma EscapeHasNoValue(c: char, last: Option<char>)
    requires IsControl(c)
    ensures LastSignificant(Inside, last, EscapeOf(c)) == last
  {
    hide EscapeOf;
    EscapeShape(c);
    var e := EscapeOf(c);
    assert LastSignificant(Inside, last, e) == LastSignificant(AfterBackslash, last, e[1..]);
    assert e[1..][1..] == e[2..];
    assert LastSignificant(AfterBackslash, last, e[1..]) == LastSignificant(Inside, last, e[2..]);
    PlainHasNoValue(e[2..], last);
  }

  lemma EscapeShape(c: char)
    requires IsControl(c)
    ensures |EscapeOf(c)| >= 2 && EscapeOf(c)[0] == '\\'
    ensures forall k :: 1 <= k < |EscapeOf(c)| ==> EscapeOf(c)[k] != '"' && EscapeOf(c)[k] != '\\'
  {
  }

  lemma {:induction false} PlainHasNoValue(s: string, last: Option<char>)
    requires forall k :: 0 <= k < |s| ==> s[k] != '"' && s[k] != '\\'
    ensures LastSignificant(Inside, last, s) == last
  {
    if s != [] {
      PlainHasNoValue(s[1..], last);
    }
  }

  /** What the scanner remembers is the last significant character kept. */
  lemma LastOfEdit(place: Place, last: Option<char>, c: char, rest: string)
    ensures LastAfter(place, last, c, rest) == LastSignificant(place, last, After(EditOf(place, last, c, rest)))
  {
    hide EscapeOf, Closes;
    var e := EditOf(place, last, c, rest);
    if e.Escape? {
      EscapeHasNoValue(c, last);
    } else if e.Copy? {
      assert [c][1..] == [];
    }
  }

  lemma EditIsLicensed(place: Place, last: Option<char>, text: string)
    requires text != []
    ensures LicensedAt(place, last, Script(place, last, text), 0)
  {
    hide Closes;
    var es := Script(place, last, text);
    assert es[..0] == [];
    var rest := Script(Next(place, text[0]), LastAfter(place, last, text[0], text[1..]), text[1..]);
    assert es[1..] == rest;
    InputIsKept(Next(place, text[0]), LastAfter(place, last, text[0], text[1..]), text[1..]);
  }

  lemma {:induction false} InputIsKept(place: Place, last: Option<char>, text: string)
    ensures BeforeAll(Script(place, last, text)) == text
    decreases |text|
  {
    hide Closes;
    if text != [] {
      var es := Script(place, last, text);
      var rest := Script(Next(place, text[0]), LastAfter(place, last, text[0], text[1..]), text[1..]);
      InputIsKept(Next(place, text[0]), LastAfter(place, last, text[0], text[1..]), text[1..]);
      assert es[1..] == rest;
    }
  }

  /** A later edit of a script is licensed when it is in the script without
      the first. */
  lemma LaterEdit(place: Place, last: Option<char>, e: Edit, rest: seq<Edit>, k: nat)
    requires e.DropComma? ==> place == Outside
    requires e.Escape? ==> place == Inside && IsControl(e.c)
    requires 0 < k <= |rest|
    requires LicensedAt(PlaceAfter(place, After(e)), LastSignificant(place, last, After(e)), rest, k - 1)
    ensures LicensedAt(place, last, [e] + rest, k)
  {
    hide Closes, Before, After, EndsValue;
    var es := [e] + rest;
    PlaceOfEdit(place, e);
    assert es[..k] == [e] + rest[..k - 1] && es[..k][1..] == rest[..k - 1] && es[k + 1..] == rest[k..] && es[k] == rest[k - 1];
    PlaceAfterConcat(place, Before(e), BeforeAll(rest[..k - 1]));
    PlaceAfterConcat(place, After(e), AfterAll(rest[..k - 1]));
    LastSignificantConcat(place, last, After(e), AfterAll(rest[..k - 1]));
  }

  /** The repair touches nothing but the commas and control characters it is
      licensed to, exactly those, and a position is inside a string in the
      input exactly when the corresponding one is in the output. */
  lemma {:induction false} RepairOnlyEditsLicensed(place: Place, last: Option<char>, text: string)
    ensures BeforeAll(Script(place, last, text)) == text
    ensures Licensed(place, last, Script(place, last, text))
    decreases |text|
  {
    hide LicensedAt, Closes, EndsValue;
    InputIsKept(place, last, text);
    if text != [] {
      var es := Script(place, last, text);
      var e, next, seen := es[0], Next(place, text[0]), LastAfter(place, last, text[0], text[1..]);
      var rest := Script(next, seen, text[1..]);
      RepairOnlyEditsLicensed(next, seen, text[1..]);
      EditIsLicensed(place, last, text);
      LastOfEdit(place, last, text[0], text[1..]);
      PlaceOfEdit(place, e);
      assert es == [e] + rest;
      forall k: nat | k < |es| ensures LicensedAt(place, last, es, k) {
        if k > 0 {
          LaterEdit(place, last, e, rest, k);
        }
      }
    }
  }

  // ── On arbitrary text: idempotence ──────────────────────────────────────

  /** After a kept comma, what follows closes a container in the repaired text
      exactly when it does in the original: no dropped comma makes an earlier
      one droppable. */
  lemma {:induction false} ClosesSurvivesRepair(text: string)
    ensures Closes(AfterAll(Script(Outside, Some(','), text))) == Closes(text)
  {
    if text != [] {
      ScriptUnfolds(Outside, Some(','), text);
      var out := AfterAll(Script(Outside, Some(','), text));
      assert out[0] == text[0];
      if IsWs(text[0]) {
        ClosesSurvivesRepair(text[1..]);
        assert out[1..] == AfterAll(Script(Outside, Some(','), text[1..]));
      }
    }
  }

  /** A copied character is copied again: only a kept comma looks ahead. */
  lemma CopyIsStable(place: Place, last: Option<char>, c: char, rest: string, tail: string)
    requires EditOf(place, last, c, rest).Copy?
    requires tail == AfterAll(Script(Next(place, c), LastAfter(place, last, c, rest), rest))
    ensures EditOf(place, last, c, tail) == Copy(c)
    ensures LastAfter(place, last, c, tail) == LastAfter(place, last, c, rest)
  {
    if place == Outside && c == ',' {
      ClosesSurvivesRepair(rest);
    }
  }

  /** Scanning the repaired text from the same state changes nothing. */
  lemma {:induction false} RepairedIsStable(place: Place, last: Option<char>, text: string)
    ensures var out := AfterAll(Script(place, last, text));
            AfterAll(Script(place, last, out)) == out
    decreases |text|
  {
    hide Script, AfterAll, Closes, EscapeOf;
    if text == [] {
      NothingLeft(place, last, text);
      NothingLeft(place, last, []);
    } else {
      var c, rest := text[0], text[1..];
      var e := EditOf(place, last, c, rest);
      var next, lastNext := Next(place, c), LastAfter(place, last, c, rest);
      var tail := AfterAll(Script(next, lastNext, rest));
      var out := AfterAll(Script(place, last, text));
      ScriptUnfolds(place, last, text);
      RepairedIsStable(next, lastNext, rest);
      match e {
        case DropComma =>
          assert out == tail;
        case Escape(_) =>
          EscapeStaysInside(c);
          CopiedInside(EscapeOf(c), last, tail);
        case Copy(_) =>
          assert out == [c] + tail && out[1..] == tail;
          CopyIsStable(place, last, c, rest, tail);
          ScriptUnfolds(place, last, out);
      }
    }
  }

  lemma CopiedAfterBackslash(t: string, last: Option<char>, tail: string)
    requires PlaceAfter(AfterBackslash, t) == Inside
    ensures t != [] && PlaceAfter(Inside, t[1..]) == Inside
    ensures AfterAll(Script(AfterBackslash, last, t + tail)) == [t[0]] + AfterAll(Script(Inside, last, t[1..] + tail))
  {
    assert (t + tail)[1..] == t[1..] + tail;
    ScriptUnfolds(AfterBackslash, last, t + tail);
  }

  /** Inside a string, text without control characters and quotes is copied. */
  lemma {:induction false} CopiedInside(s: string, last: Option<char>, tail: string)
    requires forall k :: 0 <= k < |s| ==> !IsControl(s[k]) && s[k] != '"'
    requires PlaceAfter(Inside, s) == Inside
    ensures AfterAll(Script(Inside, last, s + tail)) == s + AfterAll(Script(Inside, last, tail))
    decreases |s|
  {
    hide Script, AfterAll;
    if s == [] {
      assert s + tail == tail;
    } else {
      assert (s + tail)[1..] == s[1..] + tail;
      ScriptUnfolds(Inside, last, s + tail);
      if s[0] == '\\' {
        var t := s[1..];
        CopiedAfterBackslash(t, last, tail);
        CopiedInside(t[1..], last, tail);
        assert s == [s[0]] + ([t[0]] + t[1..]);
      } else {
        CopiedInside(s[1..], last, tail);
      }
    }
  }

  /** Repairing twice is repairing once, on every text. */
  lemma RepairIsIdempotent(text: string)
    ensures Repair(Repair(text)) == Repair(text)
  {
    RepairedIsStable(Outside, None, text);
  }
}
