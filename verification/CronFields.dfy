/** Parsing one field of a cron expression into the set of values it admits.
    `int(...)` is any function from strings to integers that may fail; every failure
    of the parser is a ValueError, written None. */
module CronFields {
  import opened Collections
  import opened Calendar
  import opened CronScheduling
  import opened CronHorizon

  type IntParser = string -> Option<int>

  // ---------- strings ----------

  function Find(s: string, c: char): (i: nat)
    ensures i <= |s| && c !in s[..i]
    ensures c in s <==> i < |s|
    ensures i < |s| ==> s[i] == c
  {
    if s == [] || s[0] == c then 0 else
      var i := 1 + Find(s[1..], c);
      assert s[..i] == [s[0]] + s[1..][..i - 1];
      assert c in s <==> c in s[1..];
      i
  }

  /** `s.split(c)`. */
  function Split(s: string, c: char): (parts: seq<string>)
    ensures |parts| >= 1
    ensures c !in s <==> |parts| == 1
    decreases |s|
  {
    var i := Find(s, c);
    if i == |s| then [s] else [s[..i]] + Split(s[i + 1..], c)
  }

  function Join(parts: seq<string>, c: char): string
    requires |parts| >= 1
  {
    if |parts| == 1 then parts[0] else parts[0] + [c] + Join(parts[1..], c)
  }

  lemma {:induction false} JoinFirst(first: string, rest: seq<string>, c: char)
    ensures Join([first], c) == first
    ensures rest != [] ==> Join([first] + rest, c) == first + [c] + Join(rest, c)
  {
    assert rest != [] ==> ([first] + rest)[1..] == rest;
  }

  lemma Pieces(s: string, i: nat)
    requires i < |s|
    ensures s == s[..i] + [s[i]] + s[i + 1..]
  {
  }

  lemma {:induction false} SplitCases(s: string, c: char)
    ensures var i := Find(s, c);
            Split(s, c) == if i == |s| then [s] else [s[..i]] + Split(s[i + 1..], c)
  {
  }

  /** Splitting loses nothing. */
  lemma {:induction false} SplitJoins(s: string, c: char)
    ensures Join(Split(s, c), c) == s
    decreases |s|
  {
    hide Find, Split, Join;
    var i := Find(s, c);
    SplitCases(s, c);
    if i < |s| {
      SplitJoins(s[i + 1..], c);
      JoinFirst(s[..i], Split(s[i + 1..], c), c);
      Pieces(s, i);
    } else {
      JoinFirst(s, [], c);
    }
  }

  /** Splitting leaves no separator in a part. */
  lemma {:induction false} PartsHoldNoSeparator(s: string, c: char)
    ensures forall p :: p in Split(s, c) ==> c !in p
    decreases |s|
  {
    hide Find;
    var i := Find(s, c);
    if i < |s| {
      PartsHoldNoSeparator(s[i + 1..], c);
    }
  }

  // ---------- one component ----------

  predicate OnStep(v: int, start: int, step: int)
    requires step > 0
  {
    (v - start) % step == 0
  }

  /** `set(range(start, end + 1, step))`. */
  function Progression(start: int, end: int, step: int): set<int>
    requires step > 0
  {
    set v | start <= v <= end && OnStep(v, start, step)
  }

  /** The bounds a component names: all of the field, two numbers, or one. */
  function Bounds(s: string, lo: int, hi: int, starAllowed: bool, parse: IntParser): Option<(int, int)> {
    if starAllowed && s == "*" then Some((lo, hi))
    else if '-' in s then
      var parts := Split(s, '-');
      if |parts| == 2 && parse(parts[0]).Some? && parse(parts[1]).Some?
      then Some((parse(parts[0]).value, parse(parts[1]).value))
      else None
    else if parse(s).Some? then Some((parse(s).value, parse(s).value))
    else None
  }

  /** The step of a component, and the part before it. */
  function StepOf(s: string, parse: IntParser): Option<(string, int)> {
    var i := Find(s, '/');
    if i == |s| then Some((s, 1))
    else if parse(s[i + 1..]).Some? && parse(s[i + 1..]).value > 0 then Some((s[..i], parse(s[i + 1..]).value))
    else None
  }

  /** The values of a stripped component that is not blank. */
  function ComponentValues(s: string, lo: int, hi: int, parse: IntParser): (r: Option<set<int>>)
    ensures r.Some? ==> NonEmpty(r.value) && forall v :: v in r.value ==> lo <= v <= hi
  {
    match StepOf(s, parse)
    case None => None
    case Some((range, step)) =>
      match Bounds(range, lo, hi, '/' in s, parse)
      case None => None
      case Some((start, end)) =>
        if lo <= start <= end <= hi then
          assert OnStep(start, start, step);
          assert start in Progression(start, end, step);
          Some(Progression(start, end, step))
        else None
  }

  // ---------- what a component means ----------

  /** The text is a range alone, or a range, a slash and a positive step. */
  ghost predicate Reads(s: string, range: string, stepped: bool, step: int, parse: IntParser) {
    '/' !in range && step > 0
    && if stepped then exists n :: s == range + "/" + n && parse(n) == Some(step) else s == range && step == 1
  }

  /** The range is a star before a slash, two numbers with a hyphen between them, or one. */
  ghost predicate Spans(range: string, stepped: bool, lo: int, hi: int, parse: IntParser, start: int, end: int) {
    if stepped && range == "*" then start == lo && end == hi
    else if '-' in range then exists a, b :: Hyphened(range, a, b) && parse(a) == Some(start) && parse(b) == Some(end)
    else parse(range) == Some(start) && end == start
  }

  ghost predicate Hyphened(range: string, a: string, b: string) {
    range == a + "-" + b && '-' !in a && '-' !in b
  }

  /** The component means `v`: its range lies in the field and holds `v`, a multiple of
      the step away from its start. */
  ghost predicate Means(s: string, lo: int, hi: int, parse: IntParser, v: int) {
    exists range, stepped, step, start, end ::
      && Reads(s, range, stepped, step, parse) && Spans(range, stepped, lo, hi, parse, start, end)
      && lo <= start <= v <= end <= hi && (v - start) % step == 0
  }

  lemma {:induction false} SplitInTwo(s: string, c: char)
    ensures |Split(s, c)| == 2 ==>
              s == Split(s, c)[0] + [c] + Split(s, c)[1] && c !in Split(s, c)[0] && c !in Split(s, c)[1]
  {
    var parts := Split(s, c);
    SplitJoins(s, c);
    PartsHoldNoSeparator(s, c);
    if |parts| == 2 {
      assert parts[0] in parts && parts[1] in parts;
      assert parts == [parts[0]] + [parts[1]];
      JoinFirst(parts[0], [parts[1]], c);
      JoinFirst(parts[1], [], c);
    }
  }

  lemma {:induction false} SplitOfTwo(a: string, b: string, c: char)
    requires c !in a && c !in b
    ensures Split(a + [c] + b, c) == [a, b]
  {
    hide Split, Find;
    var s := a + [c] + b;
    FoundAt(a, b, c);
    SplitCases(s, c);
    SplitCases(b, c);
    NotFound(b, c);
    assert s[..|a|] == a && s[|a| + 1..] == b;
  }

  lemma {:induction false} NotFound(s: string, c: char)
    requires c !in s
    ensures Find(s, c) == |s|
  {
  }

  lemma {:induction false} FoundAt(a: string, b: string, c: char)
    requires c !in a
    ensures Find(a + [c] + b, c) == |a|
  {
    var s := a + [c] + b;
    var i := Find(s, c);
    assert s[|a|] == c && c in s;
    assert forall k :: 0 <= k < i ==> s[..i][k] == s[k];
    assert forall k :: 0 <= k < |a| ==> s[k] == a[k];
  }

  /** Exactly the texts of `Reads` have a step. */
  lemma StepIsRead(s: string, range: string, stepped: bool, step: int, parse: IntParser)
    ensures Reads(s, range, stepped, step, parse) <==>
              StepOf(s, parse) == Some((range, step)) && stepped == ('/' in s)
  {
    hide Find;
    var i := Find(s, '/');
    if Reads(s, range, stepped, step, parse) && stepped {
      var n :| s == range + "/" + n && parse(n) == Some(step);
      FoundAt(range, n, '/');
      assert s[i + 1..] == n && s[..i] == range;
    }
    if StepOf(s, parse) == Some((range, step)) && '/' in s {
      Pieces(s, i);
      assert s == range + "/" + s[i + 1..];
    }
  }

  /** Exactly the ranges of `Spans` have bounds. */
  lemma BoundsAreSpanned(range: string, stepped: bool, lo: int, hi: int, parse: IntParser, start: int, end: int)
    ensures Spans(range, stepped, lo, hi, parse, start, end) <==>
              Bounds(range, lo, hi, stepped, parse) == Some((start, end))
  {
    hide Split;
    var parts := Split(range, '-');
    SplitInTwo(range, '-');
    if |parts| == 2 {
      assert Hyphened(range, parts[0], parts[1]);
    }
    forall a, b | Hyphened(range, a, b)
      ensures parts == [a, b]
    {
      SplitOfTwo(a, b, '-');
    }
  }

  lemma ValuesAre(s: string, lo: int, hi: int, parse: IntParser)
    ensures var r, step := ComponentValues(s, lo, hi, parse), StepOf(s, parse);
            if step.None? then r.None? else
              var bounds := Bounds(step.value.0, lo, hi, '/' in s, parse);
              if bounds.Some? && lo <= bounds.value.0 <= bounds.value.1 <= hi
              then r.Some? && forall v :: v in r.value <==>
                     bounds.value.0 <= v <= bounds.value.1 && (v - bounds.value.0) % step.value.1 == 0
              else r.None?
    ensures StepOf(s, parse).Some? ==> StepOf(s, parse).value.1 > 0
  {
    hide Bounds;
  }

  /** A component is read as its text says, and fails exactly if it means nothing. */
  lemma ComponentMeaning(s: string, lo: int, hi: int, parse: IntParser)
    ensures var r := ComponentValues(s, lo, hi, parse);
            && (r.Some? ==> forall v :: v in r.value <==> Means(s, lo, hi, parse, v))
            && (r.None? <==> forall v :: !Means(s, lo, hi, parse, v))
  {
    hide ComponentValues, Bounds, StepOf, Reads, Spans;
    ValuesAre(s, lo, hi, parse);
    forall range, stepped, step
      ensures Reads(s, range, stepped, step, parse) <==>
                StepOf(s, parse) == Some((range, step)) && stepped == ('/' in s)
    {
      StepIsRead(s, range, stepped, step, parse);
    }
    forall range, stepped, start, end
      ensures Spans(range, stepped, lo, hi, parse, start, end) <==>
                Bounds(range, lo, hi, stepped, parse) == Some((start, end))
    {
      BoundsAreSpanned(range, stepped, lo, hi, parse, start, end);
    }
    var r, stepped := ComponentValues(s, lo, hi, parse), '/' in s;
    if r.Some? {
      var (range, step) := StepOf(s, parse).value;
      var (start, end) := Bounds(range, lo, hi, stepped, parse).value;
      assert Reads(s, range, stepped, step, parse) && Spans(range, stepped, lo, hi, parse, start, end);
      assert (start - start) % step == 0;
      assert Means(s, lo, hi, parse, start);
    }
  }

  predicate Blank(component: string) {
    Strip(component) == ""
  }

  /** Component `s` is not blank and cannot be read. */
  ghost predicate Malformed(s: string, lo: int, hi: int, parse: IntParser) {
    !Blank(s) && forall v :: !Means(Strip(s), lo, hi, parse, v)
  }

  /** Component `s` is not blank and admits `v`. */
  ghost predicate Admits(s: string, lo: int, hi: int, parse: IntParser, v: int) {
    !Blank(s) && Means(Strip(s), lo, hi, parse, v)
  }

  /** The parser fails exactly when some component is malformed; otherwise it admits
      what the components admit, all of it in range. A field can come out empty, and
      does exactly when all its components are blank. */
  method ParseField(field: string, lo: int, hi: int, parse: IntParser) returns (r: Option<set<int>>)
    requires lo <= hi
    ensures field == "*" ==> r.Some? && forall v :: v in r.value <==> lo <= v <= hi
    ensures field != "*" ==> (r.None? <==> exists s :: s in Split(field, ',') && Malformed(s, lo, hi, parse))
    ensures field != "*" && r.Some? ==>
              forall v :: v in r.value <==> exists s :: s in Split(field, ',') && Admits(s, lo, hi, parse, v)
    ensures r.Some? ==> forall v :: v in r.value ==> lo <= v <= hi
    ensures r.Some? ==> (NonEmpty(r.value) <==> exists s :: s in Split(field, ',') && !Blank(s))
  {
    if field == "*" {
      StarIsNotBlank();
      r := Some(Progression(lo, hi, 1));
      assert forall v :: OnStep(v, lo, 1);
      assert lo in r.value;
      return;
    }
    var values: set<int> := {};
    var components := Split(field, ',');
    assert components[..|components|] == components;
    for i := 0 to |components|
      invariant forall s :: s in components[..i] ==> !Malformed(s, lo, hi, parse)
      invariant forall v :: v in values <==> exists s :: s in components[..i] && Admits(s, lo, hi, parse, v)
    {
      SnocPrefix(components, i);
      assert forall s :: s in components[..i + 1] <==> s in components[..i] || s == components[i];
      var component := Strip(components[i]);
      if component == "" {
        continue;
      }
      var parsed := ComponentValues(component, lo, hi, parse);
      ComponentMeaning(component, lo, hi, parse);
      if parsed.None? {
        assert components[i] in components && Malformed(components[i], lo, hi, parse);
        return None;
      }
      assert components[i] in components[..i + 1];
      assert forall v :: v in parsed.value <==> Admits(components[i], lo, hi, parse, v);
      values := values + parsed.value;
    }
    r := Some(values);
    ValuesWithin(components, lo, hi, parse, values);
  }

  /** What readable components admit is in range; it is nothing only if all are blank. */
  lemma ValuesWithin(components: seq<string>, lo: int, hi: int, parse: IntParser, values: set<int>)
    requires forall s :: s in components ==> !Malformed(s, lo, hi, parse)
    requires forall v :: v in values <==> exists s :: s in components && Admits(s, lo, hi, parse, v)
    ensures forall v :: v in values ==> lo <= v <= hi
    ensures NonEmpty(values) <==> exists s :: s in components && !Blank(s)
  {
    if s :| s in components && !Blank(s) {
      assert !Malformed(s, lo, hi, parse);
      var v :| Means(Strip(s), lo, hi, parse, v);
      assert Admits(s, lo, hi, parse, v);
      assert v in values;
    } else {
      assert forall s, v :: s in components ==> !Admits(s, lo, hi, parse, v);
    }
  }

  lemma StarIsNotBlank()
    ensures Split("*", ',') == ["*"] && !Blank("*")
  {
    assert Find("*", ',') == 1;
  }

  // ---------- the expression ----------

  /** The ranges of second, minute, hour, day, month and weekday. */
  const RANGES: seq<(int, int)> := [(0, 59), (0, 59), (0, 23), (1, 31), (1, 12), (0, 6)]

  ghost predicate Rejected(field: string, range: (int, int), parse: IntParser) {
    field != "*" && exists s :: s in Split(field, ',') && Malformed(s, range.0, range.1, parse)
  }

  ghost predicate Populated(field: string) {
    exists s :: s in Split(field, ',') && !Blank(s)
  }

  /** Part `field` of an expression admits `v`. */
  ghost predicate Allows(field: string, lo: int, hi: int, parse: IntParser, v: int) {
    if field == "*" then lo <= v <= hi else exists s :: s in Split(field, ',') && Admits(s, lo, hi, parse, v)
  }

  ghost predicate AreAllowed(values: set<int>, field: string, lo: int, hi: int, parse: IntParser) {
    forall v :: v in values <==> Allows(field, lo, hi, parse, v)
  }

  /** The fields of an expression that is accepted: second, minute, hour, day, month and
      weekday hold what its six parts admit, within their ranges; each of them is empty
      exactly if its part is blank. */
  ghost predicate FieldsOf(parts: seq<string>, f: Fields, parse: IntParser)
    requires |parts| == 6
  {
    && Parsed(f)
    && AreAllowed(f.seconds, parts[0], 0, 59, parse) && AreAllowed(f.minutes, parts[1], 0, 59, parse)
    && AreAllowed(f.hours, parts[2], 0, 23, parse) && AreAllowed(f.days, parts[3], 1, 31, parse)
    && AreAllowed(f.months, parts[4], 1, 12, parse) && AreAllowed(f.weekdays, parts[5], 0, 6, parse)
    && (NonEmpty(f.seconds) <==> Populated(parts[0])) && (NonEmpty(f.minutes) <==> Populated(parts[1]))
    && (NonEmpty(f.hours) <==> Populated(parts[2])) && (NonEmpty(f.days) <==> Populated(parts[3]))
    && (NonEmpty(f.months) <==> Populated(parts[4])) && (NonEmpty(f.weekdays) <==> Populated(parts[5]))
  }

  /** The six parts of an expression are parsed in turn; it is rejected exactly if
      there are not six or one of them is. */
  method ParseExpression(parts: seq<string>, parse: IntParser) returns (r: Option<Fields>)
    ensures r.None? <==> |parts| != 6 || exists i :: 0 <= i < 6 && Rejected(parts[i], RANGES[i], parse)
    ensures r.Some? ==> FieldsOf(parts, r.value, parse)
  {
    hide Malformed, Admits, Blank, Split, Means, Allows, AreAllowed, Rejected, Populated, FieldIs;
    if |parts| != 6 {
      return None;
    }
    var fields: seq<set<int>> := [];
    for i := 0 to 6
      invariant |fields| == i
      invariant forall k :: 0 <= k < i ==> FieldIs(fields[k], parts[k], RANGES[k], parse)
    {
      var field := ParseField(parts[i], RANGES[i].0, RANGES[i].1, parse);
      FieldParsed(field, parts[i], RANGES[i], parse);
      if field.None? {
        return None;
      }
      fields := fields + [field.value];
    }
    r := Some(Fields(fields[0], fields[1], fields[2], fields[3], fields[4], fields[5]));
    FieldsAre(fields, parts, r.value, parse);
  }

  /** `values` is what `field` is parsed into. */
  ghost predicate FieldIs(values: set<int>, field: string, range: (int, int), parse: IntParser) {
    && !Rejected(field, range, parse) && (NonEmpty(values) <==> Populated(field))
    && AreAllowed(values, field, range.0, range.1, parse) && forall v :: v in values ==> range.0 <= v <= range.1
  }

  /** The contract of `ParseField`, in these terms. */
  lemma {:induction false} FieldParsed(r: Option<set<int>>, field: string, range: (int, int), parse: IntParser)
    requires field == "*" ==> r.Some? && forall v :: v in r.value <==> range.0 <= v <= range.1
    requires field != "*" ==>
               (r.None? <==> exists s :: s in Split(field, ',') && Malformed(s, range.0, range.1, parse))
    requires field != "*" && r.Some? ==> forall v :: v in r.value <==>
               exists s :: s in Split(field, ',') && Admits(s, range.0, range.1, parse, v)
    requires r.Some? ==> forall v :: v in r.value ==> range.0 <= v <= range.1
    requires r.Some? ==> (NonEmpty(r.value) <==> exists s :: s in Split(field, ',') && !Blank(s))
    ensures r.None? ==> Rejected(field, range, parse)
    ensures r.Some? ==> FieldIs(r.value, field, range, parse)
  {
    hide Malformed, Admits, Blank, Split;
  }

  lemma FieldsAre(values: seq<set<int>>, parts: seq<string>, f: Fields, parse: IntParser)
    requires |values| == |parts| == 6 && forall k :: 0 <= k < 6 ==> FieldIs(values[k], parts[k], RANGES[k], parse)
    requires f == Fields(values[0], values[1], values[2], values[3], values[4], values[5])
    ensures FieldsOf(parts, f, parse) && forall k :: 0 <= k < 6 ==> !Rejected(parts[k], RANGES[k], parse)
  {
    hide Rejected, Allows, AreAllowed, Populated, NonEmpty;
    assert RANGES[0] == (0, 59) && RANGES[1] == (0, 59) && RANGES[2] == (0, 23);
    assert RANGES[3] == (1, 31) && RANGES[4] == (1, 12) && RANGES[5] == (0, 6);
  }

  /** An accepted expression, none of whose parts is blank, has a next execution less
      than 373 days after any start before the last year. */
  lemma PopulatedExpressionFires(parts: seq<string>, f: Fields, parse: IntParser, from: DateTime, r: Option<DateTime>)
    requires |parts| == 6 && FieldsOf(parts, f, parse) && forall i :: 0 <= i < 6 ==> Populated(parts[i])
    requires Valid(from) && from.year < MAX_YEAR && IsNext(f, from, r)
    ensures r.Some? && 0 < Seconds(r.value) - Seconds(from) < 373 * DAY
  {
    SearchHorizon(f, from, r);
  }

  /** A field of one component that is not blank means what that component means. */
  lemma LoneComponent(s: string, lo: int, hi: int, parse: IntParser, v: int)
    requires ',' !in s && s != "*" && s != "" && !IsSpace(s[0]) && !IsSpace(s[|s| - 1])
    ensures Allows(s, lo, hi, parse, v) <==> Means(s, lo, hi, parse, v)
  {
    hide Means;
    NotFound(s, ',');
    assert Split(s, ',') == [s];
    assert Strip(s) == s;
    assert Admits(s, lo, hi, parse, v) <==> Means(s, lo, hi, parse, v);
  }

  lemma StarTenMeans(parse: IntParser, v: int)
    requires parse("10") == Some(10)
    ensures Means("*/10", 0, 59, parse, v) <==> 0 <= v <= 59 && v % 10 == 0
  {
    var s := "*/10";
    assert s == "*" + "/" + "10";
    assert Reads(s, "*", true, 10, parse) && Spans("*", true, 0, 59, parse, 0, 59);
    StepIsRead(s, "*", true, 10, parse);
    BoundsAreSpanned("*", true, 0, 59, parse, 0, 59);
    hide Reads, Spans, StepOf, Bounds, ComponentValues, Find;
    ValuesAre(s, 0, 59, parse);
    ComponentMeaning(s, 0, 59, parse);
  }

  /** A star with step 10 in the place of the seconds admits 0, 10, 20, 30, 40 and 50, if
      the digits are read as the number ten. */
  lemma EveryTenSeconds(parts: seq<string>, f: Fields, parse: IntParser)
    requires |parts| == 6 && FieldsOf(parts, f, parse) && parts[0] == "*/10" && parse("10") == Some(10)
    ensures f.seconds == {0, 10, 20, 30, 40, 50}
  {
    hide Means, Allows;
    forall v
      ensures v in f.seconds <==> 0 <= v <= 59 && v % 10 == 0
    {
      assert AreAllowed(f.seconds, "*/10", 0, 59, parse);
      LoneComponent("*/10", 0, 59, parse, v);
      StarTenMeans(parse, v);
    }
  }
}
