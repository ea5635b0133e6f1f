/**
 Launch argument templates (src-tauri/src/models/launch.rs) and the frontend's twin of their
 validation (src/shared/contracts.ts).

 An argument is plain text with fields written ${key}. Strings are sequences of Unicode scalar
 values, the unit in which both programs count lengths.
 */
module LaunchTemplate {
  import opened Basics

  const MAX_LAUNCH_ARGUMENTS: nat := 64
  const MAX_LAUNCH_ARGUMENT_LENGTH: nat := 4_096
  const MAX_LAUNCH_TOTAL_LENGTH: nat := 16_384
  const MAX_LAUNCH_FIELDS: nat := 16
  const MAX_LAUNCH_FIELD_KEY_LENGTH: nat := 32
  const MAX_LAUNCH_VALUE_LENGTH: nat := 4_096

  datatype LaunchError =
    | Unclosed | BadKey | MissingValue | TooManyFields | TooManyArguments | EmptyArgument
    | ControlCharacter | ArgumentTooLong | TotalTooLong | TooManyValues | UnexpectedValue | EmptyValue | ValueTooLong

  type Values = map<string, string>

  // ---------------------------------------------------------------- characters and keys

  predicate IsKeyChar(c: char)
  {
    IsLetter(c) || '0' <= c <= '9' || c == '_' || c == '-'
  }

  predicate ValidKey(key: string)
  {
    && 0 < |key| <= MAX_LAUNCH_FIELD_KEY_LENGTH
    && IsLetter(key[0])
    && forall i :: 0 <= i < |key| ==> IsKeyChar(key[i])
  }

  predicate IsControl(c: char)
  {
    c <= '\U{1F}' || '\U{7F}' <= c <= '\U{9F}'
  }

  predicate Clean(s: string)
  {
    forall i :: 0 <= i < |s| ==> !IsControl(s[i])
  }

  /** The Unicode White_Space property, which trim() of Rust strips. */
  predicate IsWhite(c: char)
  {
    || '\U{09}' <= c <= '\U{0D}' || c == ' ' || c == '\U{85}' || c == '\U{A0}' || c == '\U{1680}'
    || '\U{2000}' <= c <= '\U{200A}' || c == '\U{2028}' || c == '\U{2029}' || c == '\U{202F}'
    || c == '\U{205F}' || c == '\U{3000}'
  }

  /** What trim() of ECMAScript strips: the byte order mark too, but not next line. */
  predicate IsJsWhite(c: char)
  {
    (IsWhite(c) && c != '\U{85}') || c == '\U{FEFF}'
  }

  predicate Blank(s: string)
  {
    forall i :: 0 <= i < |s| ==> IsWhite(s[i])
  }

  predicate JsBlank(s: string)
  {
    forall i :: 0 <= i < |s| ==> IsJsWhite(s[i])
  }

  // ---------------------------------------------------------------- templates

  datatype Token = Text(text: string) | Field(key: string)

  /** What the next field of `s` looks like. */
  datatype Scanned = Plain | Open | Wrong | Slot(before: string, key: string, after: string)

  /** The first place of "${" in `s`, or |s|. */
  function FindOpen(s: string): (i: nat)
    ensures i <= |s|
    ensures i < |s| ==> i + 2 <= |s| && s[i] == '$' && s[i + 1] == '{'
    ensures forall j :: 0 <= j < i && j + 1 < |s| ==> !(s[j] == '$' && s[j + 1] == '{')
  {
    if |s| < 2 then |s|
    else if s[0] == '$' && s[1] == '{' then 0
    else 1 + FindOpen(s[1..])
  }

  function Scan(s: string): (r: Scanned)
    ensures r.Slot? ==> |r.after| < |s| && ValidKey(r.key)
  {
    var start := FindOpen(s);
    if start == |s| then Plain
    else
      var tail := s[start + 2..];
      var end := IndexOf(tail, '}');
      if end == |tail| then Open
      else if !ValidKey(tail[..end]) then Wrong
      else Slot(s[..start], tail[..end], tail[end + 1..])
  }

  lemma CutOpen(s: string, i: nat)
    requires i + 2 <= |s| && s[i] == '$' && s[i + 1] == '{'
    ensures s == s[..i] + "${" + s[i + 2..]
  {
  }

  lemma CutClose(s: string, i: nat)
    requires i < |s| && s[i] == '}'
    ensures s == s[..i] + "}" + s[i + 1..]
  {
  }

  lemma Regroup(a: string, b: string, c: string, d: string, e: string)
    ensures a + b + (c + d + e) == a + b + c + d + e
  {
  }

  /** A slot is where it says it is. */
  lemma ScanShape(s: string)
    requires Scan(s).Slot?
    ensures s == Scan(s).before + "${" + Scan(s).key + "}" + Scan(s).after
  {
    hide FindOpen, ValidKey;
    var start := FindOpen(s);
    var tail := s[start + 2..];
    var end := IndexOf(tail, '}');
    CutOpen(s, start);
    CutClose(tail, end);
    Regroup(s[..start], "${", tail[..end], "}", tail[end + 1..]);
  }

  function Parse(s: string): (r: Result<seq<Token>, LaunchError>)
    decreases |s|
  {
    match Scan(s)
    case Plain => Ok([Text(s)])
    case Open => Err(Unclosed)
    case Wrong => Err(BadKey)
    case Slot(before, key, after) =>
      var rest := Parse(after);
      if rest.Err? then rest else Ok([Text(before), Field(key)] + rest.value)
  }

  function Keys(tokens: seq<Token>): (r: seq<string>)
  {
    if tokens == [] then []
    else (if tokens[0].Field? then [tokens[0].key] else []) + Keys(tokens[1..])
  }

  /** The template as it was written. */
  function Unparse(tokens: seq<Token>): (s: string)
  {
    if tokens == [] then []
    else (match tokens[0] case Text(t) => t case Field(k) => "${" + k + "}") + Unparse(tokens[1..])
  }

  /** One-pass substitution: a field becomes its value, which is not looked at again. */
  function Substitute(tokens: seq<Token>, values: Values): (s: string)
    requires forall k :: k in Keys(tokens) ==> k in values
  {
    if tokens == [] then []
    else
      (match tokens[0] case Text(t) => t case Field(k) => values[k]) + Substitute(tokens[1..], values)
  }

  /** The rendering loop as a function: scanning, key test and lookup field by field. */
  function Rendered(s: string, values: Values): (r: Result<string, LaunchError>)
    decreases |s|
  {
    match Scan(s)
    case Plain => Ok(s)
    case Open => Err(Unclosed)
    case Wrong => Err(BadKey)
    case Slot(before, key, after) =>
      if key !in values then Err(MissingValue)
      else
        var rest := Rendered(after, values);
        if rest.Err? then rest else Ok(before + values[key] + rest.value)
  }

  ghost predicate Covers(keys: seq<string>, values: Values)
  {
    forall k :: k in keys ==> k in values
  }

  lemma NoKeys(s: string)
    ensures Keys([Text(s)]) == []
  {
  }

  lemma SubstituteText(s: string, values: Values)
    requires Keys([Text(s)]) == []
    ensures Substitute([Text(s)], values) == s
  {
    assert [Text(s)][1..] == [];
    assert Keys([]) == [] && Substitute([], values) == [];
    assert s + [] == s;
  }

  lemma TokensCons(before: string, key: string, rest: seq<Token>)
    ensures var ts := [Text(before), Field(key)] + rest;
            Keys(ts) == [key] + Keys(rest) && Unparse(ts) == before + "${" + key + "}" + Unparse(rest)
  {
    var ts := [Text(before), Field(key)] + rest;
    assert ts[1..] == [Field(key)] + rest && ts[1..][1..] == rest;
    assert Keys(ts) == [] + Keys(ts[1..]) && Keys(ts[1..]) == [key] + Keys(rest);
    assert Unparse(ts[1..]) == ("${" + key + "}") + Unparse(rest);
  }

  lemma SubstituteCons(before: string, key: string, rest: seq<Token>, values: Values)
    requires key in values && Covers(Keys(rest), values)
    ensures var ts := [Text(before), Field(key)] + rest;
            Covers(Keys(ts), values) && Substitute(ts, values) == before + values[key] + Substitute(rest, values)
  {
    TokensCons(before, key, rest);
    var ts := [Text(before), Field(key)] + rest;
    assert ts[1..] == [Field(key)] + rest && ts[1..][1..] == rest;
    assert Keys(ts[1..]) == [key] + Keys(rest);
    assert Substitute(ts[1..], values) == values[key] + Substitute(rest, values);
  }

  /** Parsing loses nothing, and every parsed key is valid. */
  lemma {:induction false} ParseRoundTrip(s: string)
    requires Parse(s).Ok?
    ensures Unparse(Parse(s).value) == s
    ensures forall k :: k in Keys(Parse(s).value) ==> ValidKey(k)
    decreases |s|
  {
    match Scan(s)
    case Plain =>
      assert Unparse([Text(s)]) == s + Unparse([]);
    case Slot(before, key, after) =>
      ScanShape(s);
      ParseRoundTrip(after);
      TokensCons(before, key, Parse(after).value);
  }

  /** Rendering succeeds exactly on well-formed templates whose fields have values, by one-pass substitution. */
  lemma {:induction false} RenderingIsSubstitution(s: string, values: Values)
    ensures Rendered(s, values).Ok? <==> Parse(s).Ok? && Covers(Keys(Parse(s).value), values)
    ensures Rendered(s, values).Ok? ==> Rendered(s, values).value == Substitute(Parse(s).value, values)
    decreases |s|
  {
    match Scan(s)
    case Plain =>
      NoKeys(s);
      SubstituteText(s, values);
    case Open =>
    case Wrong =>
    case Slot(before, key, after) =>
      RenderingIsSubstitution(after, values);
      if Parse(after).Ok? {
        TokensCons(before, key, Parse(after).value);
        if key in values && Covers(Keys(Parse(after).value), values) {
          SubstituteCons(before, key, Parse(after).value, values);
        }
      }
  }

  /** Giving every key its own field back renders a template to itself. */
  lemma {:induction false} SubstituteSelf(tokens: seq<Token>, values: Values)
    requires Covers(Keys(tokens), values)
    requires forall k :: k in values ==> values[k] == "${" + k + "}"
    ensures Substitute(tokens, values) == Unparse(tokens)
  {
    if tokens != [] {
      SubstituteSelf(tokens[1..], values);
    }
  }

  lemma IdentityRendering(s: string, values: Values)
    requires Parse(s).Ok? && Covers(Keys(Parse(s).value), values)
    requires forall k :: k in values ==> values[k] == "${" + k + "}"
    ensures Rendered(s, values) == Ok(s)
  {
    RenderingIsSubstitution(s, values);
    SubstituteSelf(Parse(s).value, values);
    ParseRoundTrip(s);
  }

  // ---------------------------------------------------------------- printing, then parsing

  /** No field opens in the text. */
  ghost predicate NoOpening(t: string)
  {
    forall j :: 0 <= j < |t| - 1 ==> !(t[j] == '$' && t[j + 1] == '{')
  }

  /** Text, field, text, and so on to a last text; the texts open no field and the keys are valid. */
  ghost predicate Printable(tokens: seq<Token>)
  {
    && tokens != [] && tokens[0].Text? && NoOpening(tokens[0].text)
    && (|tokens| == 1 || (tokens[1].Field? && ValidKey(tokens[1].key) && Printable(tokens[2..])))
  }

  /** The first opening after a text without one. */
  lemma {:induction false} FirstOpening(t: string, rest: string)
    requires NoOpening(t)
    ensures FindOpen(t + "${" + rest) == |t|
  {
    var s := t + "${" + rest;
    if t == [] {
      assert s[0] == '$' && s[1] == '{';
    } else {
      assert s[1..] == t[1..] + "${" + rest;
      assert NoOpening(t[1..]);
      FirstOpening(t[1..], rest);
      assert s[0] == t[0] && s[1] == (if |t| > 1 then t[1] else '$');
    }
  }

  lemma {:induction false} NoOpeningFound(t: string)
    ensures FindOpen(t) == |t| <==> NoOpening(t)
  {
    if |t| >= 2 && !(t[0] == '$' && t[1] == '{') {
      NoOpeningFound(t[1..]);
      assert NoOpening(t) <==> NoOpening(t[1..]) by {
        if NoOpening(t[1..]) {
          forall j | 0 <= j < |t| - 1
            ensures !(t[j] == '$' && t[j + 1] == '{')
          {
            if j > 0 {
              assert t[1..][j - 1] == t[j] && t[1..][j] == t[j + 1];
            }
          }
        }
        if NoOpening(t) {
          assert forall j :: 0 <= j < |t[1..]| ==> t[1..][j] == t[j + 1];
        }
      }
    }
  }

  lemma KeyHasNoBrace(key: string)
    requires ValidKey(key)
    ensures '}' !in key
  {
  }

  /** A field is scanned as what was printed. */
  lemma ScanPrinted(t: string, key: string, rest: string)
    requires NoOpening(t) && ValidKey(key)
    ensures Scan(t + ("${" + key + "}" + rest)) == Slot(t, key, rest)
  {
    hide FindOpen, ValidKey, NoOpening;
    var tail := key + "}" + rest;
    var s := t + ("${" + key + "}" + rest);
    assert s == t + "${" + tail;
    FirstOpening(t, tail);
    KeyHasNoBrace(key);
    assert s[..|t|] == t && s[|t| + 2..] == tail;
    IndexOfUnique(tail, '}', |key|);
    assert tail[..|key|] == key && tail[|key| + 1..] == rest;
    hide IndexOf;
    ScanCases(s);
  }

  lemma PlainScan(t: string)
    requires NoOpening(t)
    ensures Scan(t) == Plain
  {
    NoOpeningFound(t);
  }

  lemma UnparseCons(t: string, key: string, rest: seq<Token>)
    ensures Unparse([Text(t), Field(key)] + rest) == t + ("${" + key + "}" + Unparse(rest))
  {
    TokensCons(t, key, rest);
    assert t + ("${" + key + "}" + Unparse(rest)) == t + "${" + key + "}" + Unparse(rest);
  }

  /** What is printed from printable tokens parses to these tokens. */
  lemma {:induction false} PrintParse(tokens: seq<Token>)
    requires Printable(tokens)
    ensures Parse(Unparse(tokens)) == Ok(tokens)
    decreases |tokens|
  {
    var t := tokens[0].text;
    if |tokens| == 1 {
      assert tokens == [Text(t)] && tokens[1..] == [] && t + [] == t;
      assert Unparse(tokens) == t;
      PlainScan(t);
    } else {
      var key, rest := tokens[1].key, tokens[2..];
      assert tokens == [Text(t), Field(key)] + rest;
      hide Scan, Unparse, NoOpening, ValidKey;
      PrintParse(rest);
      UnparseCons(t, key, rest);
      ScanPrinted(t, key, Unparse(rest));
    }
  }

  /** Every parsed template is printable: an argument is accepted exactly if it is what some printable tokens print. */
  lemma {:induction false} ParsedIsPrintable(s: string)
    requires Parse(s).Ok?
    ensures Printable(Parse(s).value) && Unparse(Parse(s).value) == s
    decreases |s|
  {
    ParseRoundTrip(s);
    match Scan(s)
    case Plain =>
      NoOpeningFound(s);
    case Slot(before, key, after) =>
      ParsedIsPrintable(after);
      BeforeHasNoOpening(s);
      var rest := Parse(after).value;
      assert ([Text(before), Field(key)] + rest)[2..] == rest;
  }

  lemma BeforeHasNoOpening(s: string)
    requires Scan(s).Slot?
    ensures NoOpening(Scan(s).before)
  {
    var start := FindOpen(s);
    assert forall j :: 0 <= j < start ==> s[..start][j] == s[j];
  }

  /** A template is accepted exactly if it can be printed from tokens, and these are unique. */
  lemma AcceptedIffPrinted(s: string)
    ensures Parse(s).Ok? <==> exists tokens :: Printable(tokens) && Unparse(tokens) == s
    ensures forall tokens :: Printable(tokens) && Unparse(tokens) == s ==> Parse(s) == Ok(tokens)
  {
    hide Parse, Printable, Unparse;
    if Parse(s).Ok? {
      ParsedIsPrintable(s);
    }
    forall tokens | Printable(tokens) && Unparse(tokens) == s
      ensures Parse(s) == Ok(tokens)
    {
      PrintParse(tokens);
    }
  }

  // ---------------------------------------------------------------- the scanning loops

  lemma ScanCases(s: string)
    ensures var start := FindOpen(s);
            if start == |s| then Scan(s) == Plain
            else
              var tail := s[start + 2..];
              var end := IndexOf(tail, '}');
              && (end == |tail| ==> Scan(s) == Open)
              && (end < |tail| && !ValidKey(tail[..end]) ==> Scan(s) == Wrong)
              && (end < |tail| && ValidKey(tail[..end]) ==> Scan(s) == Slot(s[..start], tail[..end], tail[end + 1..]))
  {
    hide FindOpen, ValidKey, IndexOf;
  }

  lemma SlotEnd(argument: string, cursor: nat, start: nat, end: nat)
    requires cursor + start + 2 + end + 1 <= |argument|
    ensures argument[cursor..][start + 2..][end + 1..] == argument[cursor + start + 2 + end + 1..]
  {
    Shift(argument, cursor, start + 2);
    Shift(argument, cursor + start + 2, end + 1);
  }

  /** One turn of a cursor loop finds what Scan says about the rest of the argument. */
  method NextSlot(argument: string, cursor: nat) returns (r: Scanned, next: nat)
    requires cursor <= |argument|
    ensures r == Scan(argument[cursor..])
    ensures r.Slot? ==> cursor < next <= |argument| && argument[next..] == r.after
  {
    hide FindOpen, ValidKey, Scan, IndexOf;
    next := cursor;
    var rest := argument[cursor..];
    ScanCases(rest);
    var relativeStart := FindOpen(rest);
    if relativeStart == |rest| {
      return Plain, next;
    }
    var tail := rest[relativeStart + 2..];
    var relativeEnd := IndexOf(tail, '}');
    if relativeEnd == |tail| {
      return Open, next;
    }
    var key := tail[..relativeEnd];
    if !ValidKey(key) {
      return Wrong, next;
    }
    SlotEnd(argument, cursor, relativeStart, relativeEnd);
    next := cursor + relativeStart + 2 + relativeEnd + 1;
    return Slot(rest[..relativeStart], key, tail[relativeEnd + 1..]), next;
  }

  method TemplateFields(argument: string) returns (r: Result<seq<string>, LaunchError>)
    ensures r.Ok? <==> Parse(argument).Ok?
    ensures r.Ok? ==> r.value == Keys(Parse(argument).value)
    ensures r.Err? ==> r.error == Parse(argument).error
  {
    hide Scan, Keys;
    var fields: seq<string> := [];
    var cursor := 0;
    assert argument[0..] == argument;
    while true
      invariant cursor <= |argument|
      invariant Parse(argument).Ok? <==> Parse(argument[cursor..]).Ok?
      invariant Parse(argument).Ok? ==>
                  Keys(Parse(argument).value) == fields + Keys(Parse(argument[cursor..]).value)
      invariant Parse(argument).Err? ==> Parse(argument).error == Parse(argument[cursor..]).error
      decreases |argument| - cursor
    {
      var slot, next := NextSlot(argument, cursor);
      match slot
      case Plain =>
        NoKeys(argument[cursor..]);
        return Ok(fields);
      case Open => return Err(Unclosed);
      case Wrong => return Err(BadKey);
      case Slot(before, key, after) =>
        if Parse(after).Ok? {
          TokensCons(before, key, Parse(after).value);
        }
        fields := fields + [key];
        cursor := next;
    }
  }

  lemma RenderedUnfolds(s: string, values: Values)
    ensures Scan(s) == Plain ==> Rendered(s, values) == Ok(s)
    ensures Scan(s) == Open ==> Rendered(s, values) == Err(Unclosed)
    ensures Scan(s) == Wrong ==> Rendered(s, values) == Err(BadKey)
    ensures Scan(s).Slot? ==>
              var key, rest := Scan(s).key, Rendered(Scan(s).after, values);
              if key !in values then Rendered(s, values) == Err(MissingValue)
              else if rest.Err? then Rendered(s, values) == rest
              else Rendered(s, values) == Ok(Scan(s).before + values[key] + rest.value)
  {
    hide Scan;
  }

  lemma Regrouped(a: string, b: string, c: string, d: string)
    ensures a + (b + c + d) == a + b + c + d
  {
  }

  method RenderArgument(argument: string, values: Values) returns (r: Result<string, LaunchError>)
    ensures r == Rendered(argument, values)
  {
    hide Scan, Rendered;
    var rendered: string := [];
    var cursor := 0;
    assert argument[0..] == argument;
    while true
      invariant cursor <= |argument|
      invariant Rendered(argument, values).Ok? <==> Rendered(argument[cursor..], values).Ok?
      invariant Rendered(argument, values).Ok? ==>
                  Rendered(argument, values).value == rendered + Rendered(argument[cursor..], values).value
      invariant Rendered(argument, values).Err? ==>
                  Rendered(argument, values).error == Rendered(argument[cursor..], values).error
      decreases |argument| - cursor
    {
      var slot, next := NextSlot(argument, cursor);
      RenderedUnfolds(argument[cursor..], values);
      match slot
      case Plain => return Ok(rendered + argument[cursor..]);
      case Open => return Err(Unclosed);
      case Wrong => return Err(BadKey);
      case Slot(before, key, after) =>
        if key !in values {
          return Err(MissingValue);
        }
        if Rendered(after, values).Ok? {
          Regrouped(rendered, before, values[key], Rendered(after, values).value);
        }
        rendered := rendered + before + values[key];
        cursor := next;
    }
  }
}
