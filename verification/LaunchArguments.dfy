/**
 Argument lists and their fields: the extractor, validators and renderer of
 src-tauri/src/models/launch.rs and the extractor and validator of src/shared/contracts.ts.
 */
module LaunchArguments {
  import opened Basics
  import opened LaunchTemplate

  // ---------------------------------------------------------------- fields of a list

  function KeysOf(argument: string): (r: seq<string>)
  {
    var p := Parse(argument);
    if p.Ok? then Keys(p.value) else []
  }

  function AllKeys(args: seq<string>): (r: seq<string>)
  {
    if args == [] then [] else AllKeys(args[..|args| - 1]) + KeysOf(args[|args| - 1])
  }

  /** The keys without repetitions, each at its first occurrence. */
  function Distinct(s: seq<string>): (d: seq<string>)
    ensures forall x :: x in d <==> x in s
  {
    if s == [] then []
    else
      var d, last := Distinct(s[..|s| - 1]), s[|s| - 1];
      assert s == s[..|s| - 1] + [last];
      if last in d then d else d + [last]
  }

  /** The fields a list asks for. */
  function FieldsOf(args: seq<string>): (r: seq<string>)
  {
    Distinct(AllKeys(args))
  }

  /** Every argument is a template and together they use few enough fields. */
  ghost predicate Accepts(args: seq<string>)
  {
    && (forall i :: 0 <= i < |args| ==> Parse(args[i]).Ok?)
    && |FieldsOf(args)| <= MAX_LAUNCH_FIELDS
  }

  lemma DistinctSnoc(s: seq<string>, x: string)
    ensures Distinct(s + [x]) == if x in s then Distinct(s) else Distinct(s) + [x]
  {
    assert (s + [x])[..|s|] == s;
  }

  lemma {:induction false} DistinctGrows(a: seq<string>, b: seq<string>)
    ensures Distinct(a) <= Distinct(a + b)
  {
    if b == [] {
      assert a + b == a;
    } else {
      var init, last := b[..|b| - 1], b[|b| - 1];
      assert b == init + [last];
      Assoc(a, init, [last]);
      DistinctGrows(a, init);
      DistinctSnoc(a + init, last);
    }
  }

  /** No repetitions, and the order of first occurrences. */
  lemma {:induction false} DistinctOrder(s: seq<string>)
    ensures forall i, j :: 0 <= i < j < |Distinct(s)| ==> IndexOf(s, Distinct(s)[i]) < IndexOf(s, Distinct(s)[j])
    ensures forall i :: 0 <= i < |Distinct(s)| ==> IndexOf(s, Distinct(s)[i]) < |s|
  {
    if s != [] {
      var init, last := s[..|s| - 1], s[|s| - 1];
      assert s == init + [last];
      DistinctOrder(init);
      var d := Distinct(init);
      hide Distinct;
      forall i | 0 <= i < |d|
        ensures IndexOf(s, d[i]) == IndexOf(init, d[i])
      {
        IndexOfAppend(init, [last], d[i]);
      }
      if last !in init {
        IndexOfUnique(s, last, |init|);
      }
      DistinctSnoc(init, last);
    }
  }

  lemma AllKeysSnoc(args: seq<string>, n: nat)
    requires n < |args|
    ensures AllKeys(args[..n + 1]) == AllKeys(args[..n]) + KeysOf(args[n])
  {
    assert args[..n + 1][..n] == args[..n];
  }

  lemma {:induction false} AllKeysGrow(args: seq<string>, n: nat)
    requires n <= |args|
    ensures AllKeys(args[..n]) <= AllKeys(args)
    decreases |args| - n
  {
    if n == |args| {
      assert args[..n] == args;
    } else {
      AllKeysSnoc(args, n);
      AllKeysGrow(args, n + 1);
    }
  }

  /** Too many fields in front are too many fields in all. */
  lemma FieldsGrow(args: seq<string>, n: nat, done: seq<string>)
    requires n < |args| && done <= KeysOf(args[n])
    ensures |Distinct(AllKeys(args[..n]) + done)| <= |FieldsOf(args)|
  {
    hide Distinct, AllKeys, KeysOf;
    AllKeysSnoc(args, n);
    AllKeysGrow(args, n + 1);
    var front, whole := AllKeys(args[..n]) + done, AllKeys(args);
    assert front <= AllKeys(args[..n + 1]) by {
      assert AllKeys(args[..n + 1]) == front + KeysOf(args[n])[|done|..];
    }
    assert whole == front + whole[|front|..];
    DistinctGrows(front, whole[|front|..]);
  }

  /** Adding one field to the collected list; None when the list is full. */
  method AddField(fields: seq<string>, seen: set<string>, key: string, ghost done: seq<string>)
    returns (r: Option<(seq<string>, set<string>)>)
    requires fields == Distinct(done) && seen == (set k | k in fields) && |fields| <= MAX_LAUNCH_FIELDS
    ensures r.Some? ==> var (fields', seen') := r.value;
                        fields' == Distinct(done + [key]) && seen' == (set k | k in fields')
                        && |fields'| <= MAX_LAUNCH_FIELDS
    ensures r.None? ==> |Distinct(done + [key])| > MAX_LAUNCH_FIELDS
  {
    DistinctSnoc(done, key);
    if key in seen {
      return Some((fields, seen));
    }
    if |fields| >= MAX_LAUNCH_FIELDS {
      return None;
    }
    return Some((fields + [key], seen + {key}));
  }

  /** The Rust extractor: all fields of an argument are validated before any is collected. */
  method ExtractLaunchFields(args: seq<string>) returns (r: Result<seq<string>, LaunchError>)
    ensures r.Ok? <==> Accepts(args)
    ensures r.Ok? ==> r.value == FieldsOf(args)
  {
    hide Distinct, AllKeys, Parse, Keys;
    var fields: seq<string>, seen: set<string> := [], {};
    NothingCollected(args);
    for n := 0 to |args|
      invariant forall i :: 0 <= i < n ==> Parse(args[i]).Ok?
      invariant fields == Distinct(AllKeys(args[..n])) && seen == (set k | k in fields)
      invariant |fields| <= MAX_LAUNCH_FIELDS
    {
      var keys := TemplateFields(args[n]);
      if keys.Err? {
        return Err(keys.error);
      }
      ghost var base := AllKeys(args[..n]);
      assert base + keys.value[..0] == base;
      for m := 0 to |keys.value|
        invariant fields == Distinct(base + keys.value[..m]) && seen == (set k | k in fields)
        invariant |fields| <= MAX_LAUNCH_FIELDS
      {
        var key := keys.value[m];
        assert base + keys.value[..m + 1] == base + keys.value[..m] + [key];
        var added := AddField(fields, seen, key, base + keys.value[..m]);
        if added.None? {
          FieldsGrow(args, n, keys.value[..m + 1]);
          return Err(TooManyFields);
        }
        fields, seen := added.value.0, added.value.1;
      }
      assert keys.value[..|keys.value|] == keys.value;
      AllKeysSnoc(args, n);
    }
    assert args[..|args|] == args;
    return Ok(fields);
  }

  lemma NothingCollected(args: seq<string>)
    ensures Distinct(AllKeys(args[..0])) == []
  {
  }

  /** The TypeScript extractor: validation and collection of each field are interleaved. */
  method CollectLaunchFields(args: seq<string>) returns (r: Result<seq<string>, LaunchError>)
    ensures r.Ok? <==> Accepts(args)
    ensures r.Ok? ==> r.value == FieldsOf(args)
  {
    hide Distinct, AllKeys, Parse, Keys;
    var fields: seq<string>, seen: set<string> := [], {};
    NothingCollected(args);
    for n := 0 to |args|
      invariant forall i :: 0 <= i < n ==> Parse(args[i]).Ok?
      invariant fields == Distinct(AllKeys(args[..n])) && seen == (set k | k in fields)
      invariant |fields| <= MAX_LAUNCH_FIELDS
    {
      var collected := CollectFromArgument(args, n, fields, seen);
      if collected.Err? {
        return Err(collected.error);
      }
      fields, seen := collected.value.0, collected.value.1;
      AllKeysSnoc(args, n);
    }
    assert args[..|args|] == args;
    return Ok(fields);
  }

  method CollectFromArgument(args: seq<string>, n: nat, fields: seq<string>, seen: set<string>)
    returns (r: Result<(seq<string>, set<string>), LaunchError>)
    requires n < |args|
    requires fields == Distinct(AllKeys(args[..n])) && seen == (set k | k in fields)
    requires |fields| <= MAX_LAUNCH_FIELDS
    ensures r.Err? ==> !Accepts(args)
    ensures r.Ok? ==> var (fields', seen') := r.value;
                      && Parse(args[n]).Ok?
                      && fields' == Distinct(AllKeys(args[..n]) + KeysOf(args[n]))
                      && seen' == (set k | k in fields') && |fields'| <= MAX_LAUNCH_FIELDS
  {
    hide Distinct, AllKeys, Parse, Keys, Scan;
    var argument := args[n];
    var fields', seen' := fields, seen;
    ghost var base := AllKeys(args[..n]);
    ghost var done: seq<string> := [];
    var cursor := 0;
    assert argument[0..] == argument && base + done == base && done + KeysOf(argument) == KeysOf(argument);
    while true
      invariant cursor <= |argument|
      invariant Parse(argument).Ok? <==> Parse(argument[cursor..]).Ok?
      invariant Parse(argument).Ok? ==> KeysOf(argument) == done + KeysOf(argument[cursor..])
      invariant fields' == Distinct(base + done) && seen' == (set k | k in fields')
      invariant |fields'| <= MAX_LAUNCH_FIELDS
      decreases |argument| - cursor
    {
      var slot, next := NextSlot(argument, cursor);
      KeysStep(argument[cursor..]);
      match slot
      case Plain =>
        assert done + [] == done;
        return Ok((fields', seen'));
      case Open => return Err(Unclosed);
      case Wrong => return Err(BadKey);
      case Slot(_, key, after) =>
        Assoc(done, [key], KeysOf(after));
        Assoc(base, done, [key]);
        var added := AddField(fields', seen', key, base + done);
        done := done + [key];
        if added.None? {
          if Parse(argument).Ok? {
            FieldsGrow(args, n, done);
          }
          return Err(TooManyFields);
        }
        fields', seen' := added.value.0, added.value.1;
        cursor := next;
    }
  }

  lemma KeysStep(s: string)
    ensures match Scan(s)
            case Plain => Parse(s).Ok? && KeysOf(s) == []
            case Open => Parse(s).Err?
            case Wrong => Parse(s).Err?
            case Slot(_, key, after) =>
              (Parse(s).Ok? <==> Parse(after).Ok?) && (Parse(s).Ok? ==> KeysOf(s) == [key] + KeysOf(after))
  {
    hide Scan;
    match Scan(s)
    case Plain => NoKeys(s);
    case Open =>
    case Wrong =>
    case Slot(before, key, after) =>
      if Parse(after).Ok? {
        TokensCons(before, key, Parse(after).value);
      }
  }

  /** The promises of both extractors about what they return. */
  lemma FieldsAreDistinctInOrder(args: seq<string>)
    requires Accepts(args)
    ensures |FieldsOf(args)| <= MAX_LAUNCH_FIELDS
    ensures forall k :: k in FieldsOf(args) <==> k in AllKeys(args)
    ensures forall i, j :: 0 <= i < j < |FieldsOf(args)| ==>
              IndexOf(AllKeys(args), FieldsOf(args)[i]) < IndexOf(AllKeys(args), FieldsOf(args)[j])
  {
    DistinctOrder(AllKeys(args));
  }

  // ---------------------------------------------------------------- validation

  function Total(args: seq<string>): (n: nat)
  {
    if args == [] then 0 else Total(args[..|args| - 1]) + |args[|args| - 1]|
  }

  lemma TotalSnoc(args: seq<string>, n: nat)
    requires n < |args|
    ensures Total(args[..n + 1]) == Total(args[..n]) + |args[n]|
  {
    assert args[..n + 1][..n] == args[..n];
  }

  lemma {:induction false} TotalGrows(args: seq<string>, n: nat)
    requires n <= |args|
    ensures Total(args[..n]) <= Total(args)
    decreases |args| - n
  {
    if n == |args| {
      assert args[..n] == args;
    } else {
      TotalSnoc(args, n);
      TotalGrows(args, n + 1);
    }
  }

  ghost predicate ArgumentOk(argument: string, blank: bool)
  {
    !blank && Clean(argument) && |argument| <= MAX_LAUNCH_ARGUMENT_LENGTH
  }

  /** What the backend accepts as an argument list. */
  ghost predicate ListOk(args: seq<string>)
  {
    && |args| <= MAX_LAUNCH_ARGUMENTS
    && (forall i :: 0 <= i < |args| ==> ArgumentOk(args[i], Blank(args[i])))
    && Total(args) <= MAX_LAUNCH_TOTAL_LENGTH
    && Accepts(args)
  }

  /** What the frontend accepts as an argument list. */
  ghost predicate JsListOk(args: seq<string>)
  {
    && |args| <= MAX_LAUNCH_ARGUMENTS
    && (forall i :: 0 <= i < |args| ==> ArgumentOk(args[i], JsBlank(args[i])))
    && Total(args) <= MAX_LAUNCH_TOTAL_LENGTH
    && Accepts(args)
  }

  method ValidateArgumentList(args: seq<string>) returns (r: Result<(), LaunchError>)
    ensures r.Ok? <==> ListOk(args)
  {
    hide Accepts, Parse, Keys, Clean, Blank, Total;
    if |args| > MAX_LAUNCH_ARGUMENTS {
      return Err(TooManyArguments);
    }
    var totalLength := 0;
    NothingSummed(args);
    for n := 0 to |args|
      invariant forall i :: 0 <= i < n ==> ArgumentOk(args[i], Blank(args[i]))
      invariant totalLength == Total(args[..n]) <= MAX_LAUNCH_TOTAL_LENGTH
    {
      if Blank(args[n]) {
        return Err(EmptyArgument);
      }
      if !Clean(args[n]) {
        return Err(ControlCharacter);
      }
      if |args[n]| > MAX_LAUNCH_ARGUMENT_LENGTH {
        return Err(ArgumentTooLong);
      }
      totalLength := totalLength + |args[n]|;
      TotalSnoc(args, n);
      TotalGrows(args, n + 1);
      if totalLength > MAX_LAUNCH_TOTAL_LENGTH {
        return Err(TotalTooLong);
      }
      var fields := TemplateFields(args[n]);
      if fields.Err? {
        NotATemplate(args, n);
        return Err(fields.error);
      }
    }
    assert args[..|args|] == args;
    var fields := ExtractLaunchFields(args);
    if fields.Err? {
      return Err(fields.error);
    }
    return Ok(());
  }

  lemma NothingSummed(args: seq<string>)
    ensures Total(args[..0]) == 0
  {
  }

  lemma NotATemplate(args: seq<string>, n: nat)
    requires n < |args| && Parse(args[n]).Err?
    ensures !Accepts(args)
  {
  }

  method JsValidateArgumentList(args: seq<string>) returns (r: Result<(), LaunchError>)
    ensures r.Ok? <==> JsListOk(args)
  {
    hide Accepts, Parse, Keys, Clean, JsBlank, Total;
    if |args| > MAX_LAUNCH_ARGUMENTS {
      return Err(TooManyArguments);
    }
    var totalLength := 0;
    NothingSummed(args);
    for n := 0 to |args|
      invariant forall i :: 0 <= i < n ==> ArgumentOk(args[i], JsBlank(args[i]))
      invariant totalLength == Total(args[..n]) <= MAX_LAUNCH_TOTAL_LENGTH
    {
      if JsBlank(args[n]) {
        return Err(EmptyArgument);
      }
      if !Clean(args[n]) {
        return Err(ControlCharacter);
      }
      if |args[n]| > MAX_LAUNCH_ARGUMENT_LENGTH {
        return Err(ArgumentTooLong);
      }
      totalLength := totalLength + |args[n]|;
      TotalSnoc(args, n);
      TotalGrows(args, n + 1);
      if totalLength > MAX_LAUNCH_TOTAL_LENGTH {
        return Err(TotalTooLong);
      }
    }
    assert args[..|args|] == args;
    var fields := CollectLaunchFields(args);
    if fields.Err? {
      return Err(fields.error);
    }
    return Ok(());
  }

  /** The frontend rejects what the backend rejects and, beyond it, arguments blank for ECMAScript only. */
  lemma ValidatorsAgreeExceptOnBlanks(args: seq<string>)
    ensures JsListOk(args) <==> ListOk(args) && forall i :: 0 <= i < |args| ==> !JsBlank(args[i])
  {
    hide Accepts, Total;
    forall i | 0 <= i < |args| && Clean(args[i]) && Blank(args[i])
      ensures JsBlank(args[i])
    {
      forall j | 0 <= j < |args[i]|
        ensures IsJsWhite(args[i][j])
      {
        assert !IsControl(args[i][j]) && IsWhite(args[i][j]);
      }
    }
  }

  /** A byte order mark alone is an argument for the backend and blank for the frontend. */
  lemma ByteOrderMarkExample()
    ensures ListOk(["\U{FEFF}"]) && !JsListOk(["\U{FEFF}"])
  {
    var s := "\U{FEFF}";
    assert s[0] == '\U{FEFF}' && !IsWhite(s[0]) && !IsControl(s[0]) && IsJsWhite(s[0]);
    assert JsBlank(s) && !Blank(s) && Clean(s);
    assert FindOpen(s) == |s| && Scan(s) == Plain;
    KeysStep(s);
    assert [s][..0] == [] && AllKeys([s]) == AllKeys([]) + KeysOf(s) == [];
    assert Total([s]) == Total([]) + 1;
    assert JsBlank([s][0]);
  }

  ghost predicate ValueOk(required: seq<string>, key: string, value: string)
  {
    && ValidKey(key) && key in required
    && value != [] && Clean(value) && |value| <= MAX_LAUNCH_VALUE_LENGTH
  }

  ghost predicate ValuesOk(required: seq<string>, values: Values)
  {
    && |values| <= MAX_LAUNCH_FIELDS
    && (forall k :: k in values ==> ValueOk(required, k, values[k]))
    && Covers(required, values)
  }

  method ValidateValues(required: seq<string>, values: Values) returns (r: Result<(), LaunchError>)
    ensures r.Ok? <==> ValuesOk(required, values)
  {
    hide ValidKey, Clean;
    if |values| > MAX_LAUNCH_FIELDS {
      return Err(TooManyValues);
    }
    var todo := values.Keys;
    while todo != {}
      invariant todo <= values.Keys
      invariant forall k :: k in values && k !in todo ==> ValueOk(required, k, values[k])
      decreases |todo|
    {
      var key :| key in todo;
      var value := values[key];
      if !ValidKey(key) {
        return Err(BadKey);
      }
      if key !in required {
        return Err(UnexpectedValue);
      }
      if value == [] {
        return Err(EmptyValue);
      }
      if !Clean(value) {
        return Err(ControlCharacter);
      }
      if |value| > MAX_LAUNCH_VALUE_LENGTH {
        return Err(ValueTooLong);
      }
      todo := todo - {key};
    }
    for i := 0 to |required|
      invariant forall j :: 0 <= j < i ==> required[j] in values
    {
      if required[i] !in values {
        return Err(MissingValue);
      }
    }
    return Ok(());
  }

  // ---------------------------------------------------------------- rendering a list

  /** Every argument of an accepted list with its fields replaced, in order. */
  ghost function RenderAll(args: seq<string>, values: Values): (r: seq<string>)
    requires Accepts(args) && Covers(FieldsOf(args), values)
    ensures |r| == |args|
    ensures forall i :: 0 <= i < |args| ==>
              && Parse(args[i]).Ok? && Covers(Keys(Parse(args[i]).value), values)
              && r[i] == Substitute(Parse(args[i]).value, values)
  {
    AllCovered(args, values);
    seq(|args|, i requires 0 <= i < |args| => Substitute(Parse(args[i]).value, values))
  }

  lemma InWhole<T>(part: seq<T>, whole: seq<T>, x: T)
    requires part <= whole && x in part
    ensures x in whole
  {
  }

  lemma KeyIsListed(args: seq<string>, i: nat, k: string)
    requires i < |args| && k in KeysOf(args[i])
    ensures k in AllKeys(args)
  {
    hide AllKeys, KeysOf;
    AllKeysSnoc(args, i);
    AllKeysGrow(args, i + 1);
    InWhole(AllKeys(args[..i + 1]), AllKeys(args), k);
  }

  lemma AllCovered(args: seq<string>, values: Values)
    requires Accepts(args) && Covers(FieldsOf(args), values)
    ensures forall i :: 0 <= i < |args| ==> Parse(args[i]).Ok? && Covers(Keys(Parse(args[i]).value), values)
  {
    hide Parse, Keys, Distinct, AllKeys;
    forall i | 0 <= i < |args|
      ensures Covers(Keys(Parse(args[i]).value), values)
    {
      forall k | k in KeysOf(args[i])
        ensures k in values
      {
        KeyIsListed(args, i, k);
      }
    }
  }

  lemma CleanConcat(a: string, b: string)
    ensures Clean(a + b) <==> Clean(a) && Clean(b)
  {
    if Clean(a + b) {
      assert forall i :: 0 <= i < |a| ==> (a + b)[i] == a[i];
      assert forall i :: 0 <= i < |b| ==> (a + b)[|a| + i] == b[i];
    }
  }

  /** Substituting clean, non-empty values into a clean, non-empty template keeps it clean and non-empty. */
  lemma {:induction false} SubstitutionIsClean(tokens: seq<Token>, values: Values)
    requires Covers(Keys(tokens), values)
    requires forall k :: k in values ==> values[k] != [] && Clean(values[k])
    requires Clean(Unparse(tokens))
    ensures Clean(Substitute(tokens, values))
    ensures Unparse(tokens) != [] ==> Substitute(tokens, values) != []
  {
    hide Clean;
    if tokens != [] {
      var rest := tokens[1..];
      var written := match tokens[0] case Text(t) => t case Field(k) => "${" + k + "}";
      var inserted := match tokens[0] case Text(t) => t case Field(k) => values[k];
      assert Unparse(tokens) == written + Unparse(rest);
      assert Substitute(tokens, values) == inserted + Substitute(rest, values);
      CleanConcat(written, Unparse(rest));
      SubstitutionIsClean(rest, values);
      CleanConcat(inserted, Substitute(rest, values));
    }
  }

  ghost predicate WithinLimits(rendered: seq<string>)
  {
    && (forall i :: 0 <= i < |rendered| ==> |rendered[i]| <= MAX_LAUNCH_ARGUMENT_LENGTH)
    && Total(rendered) <= MAX_LAUNCH_TOTAL_LENGTH
  }

  /** What a valid list and valid values render to: as many arguments, none empty, none with control characters. */
  lemma RenderedArgumentsAreSound(args: seq<string>, values: Values)
    requires ListOk(args) && ValuesOk(FieldsOf(args), values)
    ensures forall i :: 0 <= i < |args| ==> RenderAll(args, values)[i] != [] && Clean(RenderAll(args, values)[i])
  {
    hide Parse, Clean, Blank, Distinct, AllKeys, Total;
    AllCovered(args, values);
    forall i | 0 <= i < |args|
      ensures RenderAll(args, values)[i] != [] && Clean(RenderAll(args, values)[i])
    {
      assert ArgumentOk(args[i], Blank(args[i]));
      NotBlankIsNotEmpty(args[i]);
      ParseRoundTrip(args[i]);
      assert forall k :: k in values ==> ValueOk(FieldsOf(args), k, values[k]);
      SubstitutionIsClean(Parse(args[i]).value, values);
    }
  }

  lemma NotBlankIsNotEmpty(s: string)
    requires !Blank(s)
    ensures s != []
  {
  }

  /** Validation, then rendering; once validation has passed, only the length limits can fail. */
  method RenderLaunchArgs(args: seq<string>, values: Values) returns (r: Result<seq<string>, LaunchError>)
    ensures !(ListOk(args) && ValuesOk(FieldsOf(args), values)) ==> r.Err?
    ensures ListOk(args) && ValuesOk(FieldsOf(args), values) ==>
              if WithinLimits(RenderAll(args, values)) then r == Ok(RenderAll(args, values))
              else r.Err? && r.error in {ArgumentTooLong, TotalTooLong}
  {
    hide Parse, Keys, Substitute, Distinct, AllKeys, Total, FieldsOf, KeysOf;
    var valid := ValidateArgumentList(args);
    if valid.Err? {
      return Err(valid.error);
    }
    var required := ExtractLaunchFields(args);
    assert required.Ok?;
    var covered := ValidateValues(required.value, values);
    if covered.Err? {
      return Err(covered.error);
    }
    ghost var all := RenderAll(args, values);
    var rendered: seq<string> := [];
    var totalLength := 0;
    NothingSummed(all);
    for n := 0 to |args|
      invariant rendered == all[..n]
      invariant forall i :: 0 <= i < n ==> |all[i]| <= MAX_LAUNCH_ARGUMENT_LENGTH
      invariant totalLength == Total(all[..n]) <= MAX_LAUNCH_TOTAL_LENGTH
    {
      var value := RenderArgument(args[n], values);
      RenderingIsSubstitution(args[n], values);
      assert value.Ok?;
      var length := |value.value|;
      if length > MAX_LAUNCH_ARGUMENT_LENGTH {
        return Err(ArgumentTooLong);
      }
      TotalSnoc(all, n);
      TotalGrows(all, n + 1);
      totalLength := totalLength + length;
      if totalLength > MAX_LAUNCH_TOTAL_LENGTH {
        return Err(TotalTooLong);
      }
      rendered := rendered + [value.value];
    }
    assert all[..|args|] == all;
    return Ok(rendered);
  }
}
