/** The pure part of the instance-detail pane (`fetchInstanceDetails` in
    src/components/ProcessInstances.tsx). The three remote calls it makes
    (variables, BPMN XML, execution history) arrive as arguments; None stands
    for a call that threw, which the source logs and carries on from. */
module InstanceDetails {
  import opened Wrappers
  import opened Strings
  import opened Seqs
  import opened Sdk

  const NotCompleted := "Not Completed"
  const Unknown := "Unknown"

  /** Lower-cased variable types the pane never shows */
  const ExcludedTypes: set<string> := {"any", "jsonschema", "object"}

  /** Trimmed, lower-cased renderings that count as "no value" */
  const EmptyRenderings: set<string> := {"", "null", "undefined"}

  /** The property names every plain object inherits from `Object.prototype`. Looking
      one of them up on the empty grouping object finds a function (or the prototype
      itself), which is truthy and has no `push`. */
  const InheritedKeys: set<string> := {
    "constructor", "hasOwnProperty", "isPrototypeOf", "propertyIsEnumerable",
    "toString", "toLocaleString", "valueOf", "__proto__",
    "__defineGetter__", "__defineSetter__", "__lookupGetter__", "__lookupSetter__"}

  /** One variable as the pane lists it */
  datatype Entry = Entry(name: string, value: string, vtype: Option<string>)

  /** Variables grouped by their source */
  type Groups = map<string, seq<Entry>>

  /** The detail pane's content for one selected instance */
  datatype Detail = Detail(
    loading: bool,
    requestor: Option<string>,
    endDate: string,
    activityType: string,
    taskLink: Option<JsValue>,
    variables: Option<Groups>)

  /** JavaScript truthiness of an optional string */
  predicate Present(o: Option<string>) {
    o.Some? && o.value != ""
  }

  // ---------------------------------------------------------------------
  // Seeding
  // ---------------------------------------------------------------------

  /** `completedTime || 'Not Completed'` */
  function EndDate(completedTime: Option<string>): (r: string)
    ensures Present(completedTime) ==> r == completedTime.value
    ensures !Present(completedTime) ==> r == NotCompleted
  {
    if Present(completedTime) then completedTime.value else NotCompleted
  }

  /** The `elementId` of the last executed element, if there is one */
  function LastElementId(elements: seq<Element>): (r: Option<string>)
    ensures |elements| == 0 ==> r.None?
    ensures forall prefix, e :: elements == prefix + [e] ==> r == e.elementId
  {
    if |elements| == 0 then None else elements[|elements| - 1].elementId
  }

  /** The element id the correlation step works with; absent when the variables call failed */
  function ElementIdOf(variables: Option<VariablesResponse>): (r: Option<string>)
  {
    if variables.Some? then LastElementId(variables.value.elements) else None
  }

  // ---------------------------------------------------------------------
  // Variable filter
  // ---------------------------------------------------------------------

  /** First filter: the lower-cased type is not one of the excluded ones */
  predicate TypeAllowed(v: Variable) {
    v.vtype.None? || Lower(v.vtype.value) !in ExcludedTypes
  }

  /** Second filter: the value is neither null nor undefined, and does not render as empty */
  predicate ValuePresent(v: Variable) {
    && v.value != JNull
    && v.value != JUndefined
    && Lower(Trim(JsString(v.value))) !in EmptyRenderings
  }

  /** Everything a variable must satisfy to be shown */
  predicate Survives(v: Variable) {
    TypeAllowed(v) && ValuePresent(v)
  }

  /** The two filters applied one after the other, as the source chains them */
  function FilterVariables(vs: seq<Variable>): (r: seq<Variable>)
    ensures r == Filter(Survives, vs)
    ensures forall v :: v in r <==> v in vs && Survives(v)
  {
    FilterFilter(TypeAllowed, ValuePresent, Survives, vs);
    FilterMembers(Survives, vs);
    Filter(ValuePresent, Filter(TypeAllowed, vs))
  }

  /** Filtering the survivors again removes nothing */
  lemma FilterVariablesIdempotent(vs: seq<Variable>)
    ensures FilterVariables(FilterVariables(vs)) == FilterVariables(vs)
  {
    FilterIdempotent(Survives, vs);
  }

  // ---------------------------------------------------------------------
  // Grouping by source
  // ---------------------------------------------------------------------

  /** `variable.source || 'Unknown'` */
  function GroupKey(v: Variable): (r: string)
  {
    if Present(v.source) then v.source.value else Unknown
  }

  function ToEntry(v: Variable): (r: Entry)
  {
    Entry(v.name, JsString(v.value), v.vtype)
  }

  /** The group keys that occur among `vs` */
  function KeysOf(vs: seq<Variable>): (r: set<string>)
  {
    if |vs| == 0 then {} else KeysOf(vs[..|vs| - 1]) + {GroupKey(vs[|vs| - 1])}
  }

  /** A key is present exactly when some variable maps to it */
  lemma {:induction false} KeysOfSpec(vs: seq<Variable>)
    ensures forall k :: k in KeysOf(vs) <==> exists i :: 0 <= i < |vs| && GroupKey(vs[i]) == k
  {
    if |vs| > 0 {
      var init := vs[..|vs| - 1];
      KeysOfSpec(init);
      assert forall i :: 0 <= i < |init| ==> init[i] == vs[i];
    }
  }

  /** Reference definition of one group: the entries of the variables with key `k`, in input order */
  function EntriesFor(vs: seq<Variable>, k: string): (r: seq<Entry>)
  {
    if |vs| == 0 then []
    else
      var last := vs[|vs| - 1];
      EntriesFor(vs[..|vs| - 1], k) + (if GroupKey(last) == k then [ToEntry(last)] else [])
  }

  lemma {:induction false} EntriesForAbsent(vs: seq<Variable>, k: string)
    requires k !in KeysOf(vs)
    ensures EntriesFor(vs, k) == []
  {
    if |vs| > 0 {
      EntriesForAbsent(vs[..|vs| - 1], k);
    }
  }

  /** `groups` buckets exactly the variables `vs`: one non-empty group per key,
      holding that key's entries in input order */
  predicate Grouped(vs: seq<Variable>, groups: Groups) {
    && groups.Keys == KeysOf(vs)
    && forall k :: k in groups ==> groups[k] == EntriesFor(vs, k) && |groups[k]| > 0
  }

  /** One step of the `forEach`: append the variable's entry to its group, creating it if needed */
  function AddEntry(groups: Groups, v: Variable): (r: Groups)
  {
    var key := GroupKey(v);
    groups[key := (if key in groups then groups[key] else []) + [ToEntry(v)]]
  }

  /** Total number of entries over all groups */
  ghost function SumSizes(m: Groups): (r: nat)
    decreases m.Keys
  {
    if m.Keys == {} then 0
    else
      var k :| k in m;
      |m[k]| + SumSizes(m - {k})
  }

  lemma {:induction false} SumSizesRemove(m: Groups, k: string)
    requires k in m
    ensures SumSizes(m) == |m[k]| + SumSizes(m - {k})
    decreases m.Keys
  {
    assert exists j :: j in m && SumSizes(m) == |m[j]| + SumSizes(m - {j});
    var j :| j in m && SumSizes(m) == |m[j]| + SumSizes(m - {j});
    if j != k {
      SumSizesRemove(m - {j}, k);
      SumSizesRemove(m - {k}, j);
      assert m - {j} - {k} == m - {k} - {j};
    }
  }

  lemma SumSizesUpdate(m: Groups, k: string, s: seq<Entry>)
    ensures SumSizes(m[k := s]) == SumSizes(m - {k}) + |s|
    ensures k in m ==> SumSizes(m) == SumSizes(m - {k}) + |m[k]|
    ensures k !in m ==> SumSizes(m) == SumSizes(m - {k})
  {
    SumSizesRemove(m[k := s], k);
    assert m[k := s] - {k} == m - {k};
    if k in m {
      SumSizesRemove(m, k);
    } else {
      assert m - {k} == m;
    }
  }

  /** Adding one variable keeps the buckets exact and the entry count equal to the
      number of variables seen */
  lemma GroupStep(vs: seq<Variable>, v: Variable, groups: Groups)
    requires Grouped(vs, groups) && SumSizes(groups) == |vs|
    ensures Grouped(vs + [v], AddEntry(groups, v)) && SumSizes(AddEntry(groups, v)) == |vs| + 1
  {
    var key := GroupKey(v);
    var next := (if key in groups then groups[key] else []) + [ToEntry(v)];
    assert (vs + [v])[..|vs|] == vs;
    if key !in groups {
      EntriesForAbsent(vs, key);
    }
    SumSizesUpdate(groups, key, next);
  }

  /** `delete groupedVariables[source]` for every empty group */
  function DropEmptyGroups(m: Groups): (r: Groups)
    ensures forall k :: k in r <==> k in m && |m[k]| > 0
    ensures forall k :: k in r ==> r[k] == m[k]
  {
    map k | k in m && |m[k]| > 0 :: m[k]
  }

  /** The deletion pass changes nothing when no group is empty */
  lemma DropEmptyGroupsKeepsFull(m: Groups)
    requires forall k :: k in m ==> |m[k]| > 0
    ensures DropEmptyGroups(m) == m
  {
  }

  /** The buckets after the `forEach` has seen the variables `vs`, one after the other */
  function Buckets(vs: seq<Variable>): (r: Groups)
  {
    if |vs| == 0 then map[] else AddEntry(Buckets(vs[..|vs| - 1]), vs[|vs| - 1])
  }

  /** The buckets hold exactly the variables seen, grouped by key in input order */
  lemma {:induction false} BucketsSpec(vs: seq<Variable>)
    ensures Grouped(vs, Buckets(vs)) && SumSizes(Buckets(vs)) == |vs|
  {
    if |vs| > 0 {
      var init := vs[..|vs| - 1];
      BucketsSpec(init);
      GroupStep(init, vs[|vs| - 1], Buckets(init));
      assert init + [vs[|vs| - 1]] == vs;
    }
  }

  /** One more variable seen: its key joins the keys and its entry joins the buckets */
  lemma PrefixStep(vs: seq<Variable>, i: int)
    requires 0 <= i < |vs|
    ensures KeysOf(vs[..i + 1]) == KeysOf(vs[..i]) + {GroupKey(vs[i])}
    ensures Buckets(vs[..i + 1]) == AddEntry(Buckets(vs[..i]), vs[i])
  {
    assert vs[..i + 1][..i] == vs[..i];
  }

  /** Some variable's group key is an inherited property name */
  predicate NamesInheritedKey(vs: seq<Variable>) {
    exists i :: 0 <= i < |vs| && GroupKey(vs[i]) in InheritedKeys
  }

  /** The `forEach` that buckets the surviving variables by source. A key that names an
      inherited property makes `push` throw, which abandons the whole grouping: None. */
  method BucketBySource(vs: seq<Variable>) returns (groups: Option<Groups>)
    ensures groups.None? <==> NamesInheritedKey(vs)
    ensures groups.Some? ==> Grouped(vs, groups.value) && SumSizes(groups.value) == |vs|
  {
    var g: Groups := map[];
    var i := 0;
    while i < |vs|
      invariant 0 <= i <= |vs|
      invariant g == Buckets(vs[..i])
      invariant KeysOf(vs[..i]) !! InheritedKeys
    {
      PrefixStep(vs, i);
      if GroupKey(vs[i]) in InheritedKeys {
        assert NamesInheritedKey(vs) by {
          assert 0 <= i < |vs| && GroupKey(vs[i]) in InheritedKeys;
        }
        return None;
      }
      g := AddEntry(g, vs[i]);
      i := i + 1;
    }
    assert vs[..|vs|] == vs;
    KeysOfSpec(vs);
    BucketsSpec(vs);
    groups := Some(g);
  }

  /** The buckets followed by the pass that deletes empty ones (which never finds one) */
  method GroupBySource(vs: seq<Variable>) returns (groups: Option<Groups>)
    ensures groups.None? <==> NamesInheritedKey(vs)
    ensures groups.Some? ==> Grouped(vs, groups.value) && SumSizes(groups.value) == |vs|
  {
    groups := BucketBySource(vs);
    if groups.Some? {
      DropEmptyGroupsKeepsFull(groups.value);
      groups := Some(DropEmptyGroups(groups.value));
    }
  }

  // ---------------------------------------------------------------------
  // BPMN lookup: the first match of <bpmn:(\w+)\s+id="ELEMENT_ID"
  // ---------------------------------------------------------------------

  const TagOpen := "<bpmn:"
  const IdOpen := "id=\""

  /** Length of the run of `\w` characters starting at `i` */
  function WordRun(s: string, i: nat): (n: nat)
    requires i <= |s|
    ensures i + n <= |s|
    ensures forall j :: i <= j < i + n ==> IsWordChar(s[j])
    ensures i + n == |s| || !IsWordChar(s[i + n])
    decreases |s| - i
  {
    if i < |s| && IsWordChar(s[i]) then 1 + WordRun(s, i + 1) else 0
  }

  /** Length of the run of `\s` characters starting at `i` */
  function SpaceRun(s: string, i: nat): (n: nat)
    requires i <= |s|
    ensures i + n <= |s|
    ensures forall j :: i <= j < i + n ==> IsWhitespace(s[j])
    ensures i + n == |s| || !IsWhitespace(s[i + n])
    decreases |s| - i
  {
    if i < |s| && IsWhitespace(s[i]) then 1 + SpaceRun(s, i + 1) else 0
  }

  /** A maximal run of `\w` characters is what `WordRun` measures */
  lemma {:induction false} WordRunExact(s: string, i: nat, n: nat)
    requires i + n <= |s|
    requires forall j :: i <= j < i + n ==> IsWordChar(s[j])
    requires i + n == |s| || !IsWordChar(s[i + n])
    ensures WordRun(s, i) == n
    decreases n
  {
    if n > 0 {
      WordRunExact(s, i + 1, n - 1);
    }
  }

  /** A maximal run of `\s` characters is what `SpaceRun` measures */
  lemma {:induction false} SpaceRunExact(s: string, i: nat, n: nat)
    requires i + n <= |s|
    requires forall j :: i <= j < i + n ==> IsWhitespace(s[j])
    requires i + n == |s| || !IsWhitespace(s[i + n])
    ensures SpaceRun(s, i) == n
    decreases n
  {
    if n > 0 {
      SpaceRunExact(s, i + 1, n - 1);
    }
  }

  /** The pattern anchored at `p`, read declaratively: `<bpmn:`, the tag (one or more `\w`),
      `n` whitespace characters (n >= 1), `id="`, the element id, and a closing quote. */
  ghost predicate PatternAt(xml: string, p: nat, id: string, tag: string, n: nat)
  {
    var t := p + |TagOpen|;
    var w := t + |tag|;
    var a := w + n;
    var e := a + |IdOpen| + |id|;
    && e < |xml|
    && xml[p..t] == TagOpen
    && |tag| > 0 && xml[t..w] == tag && AllWordChars(tag)
    && n > 0 && (forall j :: w <= j < a ==> IsWhitespace(xml[j]))
    && xml[a..e] == IdOpen + id
    && xml[e] == '"'
  }

  /** The capture group of a match starting at `p`, if the pattern matches there.
      Both `\w+` and `\s+` can only match their longest run, because `\w`, `\s`
      and the `i` of `id=` are pairwise disjoint, so no backtracking is needed. */
  function MatchAt(xml: string, p: nat, id: string): (r: Option<string>)
    requires p <= |xml|
    ensures r.Some? ==> |r.value| > 0 && p + |TagOpen| + |r.value| < |xml|
  {
    var t := p + |TagOpen|;
    if t <= |xml| && xml[p..t] == TagOpen then
      var w := t + WordRun(xml, t);
      var a := w + SpaceRun(xml, w);
      var e := a + |IdOpen| + |id|;
      if w > t && a > w && e < |xml| && xml[a..e] == IdOpen + id && xml[e] == '"' then
        Some(xml[t..w])
      else
        None
    else
      None
  }

  /** Every match found is an occurrence of the pattern */
  lemma MatchAtSound(xml: string, p: nat, id: string)
    requires p <= |xml| && MatchAt(xml, p, id).Some?
    ensures var tag := MatchAt(xml, p, id).value;
      PatternAt(xml, p, id, tag, SpaceRun(xml, p + |TagOpen| + |tag|))
  {
  }

  /** Inside an occurrence of the pattern, the tag and the whitespace are maximal runs */
  lemma PatternRuns(xml: string, p: nat, id: string, tag: string, n: nat)
    requires PatternAt(xml, p, id, tag, n)
    ensures p + |TagOpen| + |tag| + n <= |xml|
    ensures WordRun(xml, p + |TagOpen|) == |tag|
    ensures SpaceRun(xml, p + |TagOpen| + |tag|) == n
  {
    var t := p + |TagOpen|;
    var w := t + |tag|;
    var a := w + n;
    var e := a + |IdOpen| + |id|;
    assert xml[a] == xml[a..e][0];
    assert forall j :: t <= j < w ==> xml[j] == xml[t..w][j - t];
    WordRunExact(xml, t, |tag|);
    SpaceRunExact(xml, w, n);
  }

  /** Every occurrence of the pattern is found, with its tag */
  lemma MatchAtComplete(xml: string, p: nat, id: string, tag: string, n: nat)
    requires PatternAt(xml, p, id, tag, n)
    ensures p <= |xml| && MatchAt(xml, p, id) == Some(tag)
  {
    PatternRuns(xml, p, id, tag, n);
  }

  /** Position of the leftmost match at or after `p` */
  function FirstMatch(xml: string, id: string, p: nat): (r: Option<nat>)
    requires p <= |xml|
    ensures r.Some? ==> p <= r.value <= |xml| && MatchAt(xml, r.value, id).Some?
    ensures r.Some? ==> forall q :: p <= q < r.value ==> MatchAt(xml, q, id).None?
    ensures r.None? ==> forall q :: p <= q <= |xml| ==> MatchAt(xml, q, id).None?
    decreases |xml| - p
  {
    if MatchAt(xml, p, id).Some? then Some(p)
    else if p == |xml| then None
    else FirstMatch(xml, id, p + 1)
  }

  /** `bpmnXml.match(...)[1]`: the tag name of the leftmost occurrence of the pattern */
  function FindTag(xml: string, id: string): (r: Option<string>)
    ensures r.Some? ==> |r.value| > 0 && AllWordChars(r.value)
    ensures r.Some? ==> exists p :: 0 <= p <= |xml| && MatchAt(xml, p, id) == r
                          && forall q :: 0 <= q < p ==> MatchAt(xml, q, id).None?
    ensures r.None? <==> forall p :: 0 <= p <= |xml| ==> MatchAt(xml, p, id).None?
  {
    match FirstMatch(xml, id, 0)
    case Some(p) => MatchAt(xml, p, id)
    case None => None
  }

  // ---------------------------------------------------------------------
  // Humanising a tag name: replace(/([A-Z])/g, ' $1').trim()
  // ---------------------------------------------------------------------

  /** `replace(/([A-Z])/g, ' $1')` */
  function SpaceBeforeUpper(s: string): (r: string)
    ensures |r| == 0 <==> |s| == 0
  {
    if |s| == 0 then ""
    else (if IsUpper(s[0]) then [' ', s[0]] else [s[0]]) + SpaceBeforeUpper(s[1..])
  }

  /** The activity label shown for a BPMN tag name: no whitespace at either end */
  function Humanize(tag: string): (r: string)
    ensures |r| > 0 ==> !IsWhitespace(r[0]) && !IsWhitespace(r[|r| - 1])
  {
    TrimSpec(SpaceBeforeUpper(tag));
    Trim(SpaceBeforeUpper(tag))
  }

  /** Every space sits right before an upper-case letter, and every upper-case letter
      after the first character has a space in front of it */
  predicate SpacedAtCapitals(r: string) {
    && (forall i :: 0 <= i < |r| && r[i] == ' ' ==> i + 1 < |r| && IsUpper(r[i + 1]))
    && (forall i :: 0 < i < |r| && IsUpper(r[i]) ==> r[i - 1] == ' ')
  }

  /** Deleting the inserted spaces restores the input */
  lemma {:induction false} SpaceBeforeUpperRestores(s: string)
    requires ' ' !in s
    ensures Filter(NotSpace, SpaceBeforeUpper(s)) == s
  {
    if |s| > 0 {
      var rest := SpaceBeforeUpper(s[1..]);
      SpaceBeforeUpperRestores(s[1..]);
      assert s[0] != ' ' by { assert s[0] in s; }
      if IsUpper(s[0]) {
        assert SpaceBeforeUpper(s) == [' '] + ([s[0]] + rest);
        FilterAppend(NotSpace, [' '], [s[0]] + rest);
      }
      FilterAppend(NotSpace, [s[0]], rest);
      assert [s[0]] + s[1..] == s;
    }
  }

  lemma {:induction false} SpaceBeforeUpperLast(s: string)
    requires |s| > 0
    ensures var r := SpaceBeforeUpper(s); |r| > 0 && r[|r| - 1] == s[|s| - 1]
  {
    if |s| > 1 {
      SpaceBeforeUpperLast(s[1..]);
    }
  }

  /** Every upper-case letter gets a space in front, and no other character does */
  lemma {:induction false} SpaceBeforeUpperSpacing(s: string)
    requires ' ' !in s
    ensures var r := SpaceBeforeUpper(s);
      && SpacedAtCapitals(r)
      && (|r| > 0 ==> !IsUpper(r[0]))
  {
    if |s| > 0 {
      var rest := SpaceBeforeUpper(s[1..]);
      SpaceBeforeUpperSpacing(s[1..]);
      var h := if IsUpper(s[0]) then [' ', s[0]] else [s[0]];
      var r := h + rest;
      assert forall i :: |h| <= i < |r| ==> r[i] == rest[i - |h|];
    }
  }

  /** On a tag of `\w` characters the label is the first character followed by
      the spaced rest: `trim` only drops the space put in front of a leading capital */
  lemma HumanizeHead(tag: string)
    requires |tag| > 0 && AllWordChars(tag)
    ensures Humanize(tag) == [tag[0]] + SpaceBeforeUpper(tag[1..])
  {
    var body := [tag[0]] + SpaceBeforeUpper(tag[1..]);
    if |tag| > 1 {
      SpaceBeforeUpperLast(tag[1..]);
    }
    TrimUnchanged(body);
    if IsUpper(tag[0]) {
      assert SpaceBeforeUpper(tag) == [' '] + body;
      TrimDropsLeading(' ', body);
    }
  }

  /** Putting a non-space character in front of a spaced text that does not start
      with a capital keeps it spaced at capitals */
  lemma ConsSpacedAtCapitals(c: char, rest: string)
    requires c != ' ' && SpacedAtCapitals(rest) && (|rest| > 0 ==> !IsUpper(rest[0]))
    ensures SpacedAtCapitals([c] + rest)
  {
    var r := [c] + rest;
    assert forall i :: 1 <= i < |r| ==> r[i] == rest[i - 1];
  }

  /** Removing the spaces from the label gives the tag back; the spaces are exactly
      those before each inner capital; the label never starts with a space. */
  lemma HumanizeShape(tag: string)
    requires AllWordChars(tag)
    ensures var r := Humanize(tag);
      && Filter(NotSpace, r) == tag
      && SpacedAtCapitals(r)
      && (|r| > 0 ==> r[0] != ' ')
  {
    if |tag| == 0 {
      assert Humanize(tag) == "";
    } else {
      HumanizeHead(tag);
      var rest := SpaceBeforeUpper(tag[1..]);
      var r := [tag[0]] + rest;
      assert tag[0] != ' ';
      SpaceBeforeUpperRestores(tag[1..]);
      SpaceBeforeUpperSpacing(tag[1..]);
      FilterAppend(NotSpace, [tag[0]], rest);
      assert [tag[0]] + tag[1..] == tag;
      ConsSpacedAtCapitals(tag[0], rest);
      assert Humanize(tag) == r;
    }
  }

  /** Puts back the capital that follows each space: the inverse of lower-casing
      a spaced label */
  function Camel(w: string): (r: string)
  {
    if |w| == 0 then ""
    else if w[0] == ' ' && |w| > 1 then [ToUpper(w[1])] + Camel(w[2..])
    else [w[0]] + Camel(w[1..])
  }

  /** Lower-casing the spaced form loses nothing: `Camel` recovers the input */
  lemma {:induction false} CamelInvertsLowerSpaced(u: string)
    requires AllWordChars(u)
    ensures Camel(Lower(SpaceBeforeUpper(u))) == u
  {
    if |u| > 0 {
      var rest := SpaceBeforeUpper(u[1..]);
      CamelInvertsLowerSpaced(u[1..]);
      var h := if IsUpper(u[0]) then [' ', u[0]] else [u[0]];
      LowerAppend(h, rest);
      var w := Lower(h) + Lower(rest);
      if IsUpper(u[0]) {
        assert w[2..] == Lower(rest);
        assert ToUpper(ToLower(u[0])) == u[0];
      } else {
        assert w[1..] == Lower(rest);
      }
      assert [u[0]] + u[1..] == u;
    }
  }

  /** One step of the replacement: the first character, then the rest */
  lemma SpaceBeforeUpperCons(c: char, s: string)
    ensures SpaceBeforeUpper([c] + s) == (if IsUpper(c) then [' ', c] else [c]) + SpaceBeforeUpper(s)
  {
    assert ([c] + s)[1..] == s;
  }

  /** The capital of "serTask" gets its space */
  lemma SpaceBeforeUpperSerTask()
    ensures SpaceBeforeUpper("serTask") == "ser Task"
  {
    SpaceBeforeUpperCons('k', "");
    SpaceBeforeUpperCons('s', "k");
    SpaceBeforeUpperCons('a', "sk");
    SpaceBeforeUpperCons('T', "ask");
    SpaceBeforeUpperCons('r', "Task");
    SpaceBeforeUpperCons('e', "rTask");
    SpaceBeforeUpperCons('s', "erTask");
    assert "serTask" == ['s'] + "erTask";
  }

  /** "userTask" becomes "user Task", and "UserTask" becomes "User Task" */
  lemma HumanizeUserTask(tag: string)
    requires tag == "userTask" || tag == "UserTask"
    ensures Humanize(tag) == [tag[0]] + "ser Task"
  {
    HumanizeHead(tag);
    assert tag[1..] == "serTask";
    SpaceBeforeUpperSerTask();
  }

  /** Lower-casing the label of a tag of `\w` characters */
  lemma LowerHumanize(tag: string)
    requires |tag| > 0 && AllWordChars(tag)
    ensures Lower(Humanize(tag)) == [ToLower(tag[0])] + Lower(SpaceBeforeUpper(tag[1..]))
  {
    HumanizeHead(tag);
    LowerAppend([tag[0]], SpaceBeforeUpper(tag[1..]));
  }

  /** Only "serTask" spaces and lower-cases to "ser task" */
  lemma SerTaskOnly(u: string)
    requires AllWordChars(u) && Lower(SpaceBeforeUpper(u)) == "ser task"
    ensures u == "serTask"
  {
    CamelInvertsLowerSpaced(u);
    assert Camel("ser task") == "serTask";
  }

  /** The only tags whose label lower-cases to "user task" */
  lemma UserTaskTagsOnly(tag: string)
    requires AllWordChars(tag)
    requires IsUserTaskLabel(Humanize(tag))
    ensures tag == "userTask" || tag == "UserTask"
  {
    if |tag| == 0 {
      assert false;
    } else {
      var rest := Lower(SpaceBeforeUpper(tag[1..]));
      LowerHumanize(tag);
      var full := [ToLower(tag[0])] + rest;
      assert full == "user task";
      assert full[1..] == rest;
      SerTaskOnly(tag[1..]);
      assert ToLower(tag[0]) == full[0] == 'u';
      assert tag == [tag[0]] + "serTask";
    }
  }

  /** Both spellings of the user-task tag give a user-task label */
  lemma UserTaskTagsLabel(tag: string)
    requires tag == "userTask" || tag == "UserTask"
    ensures IsUserTaskLabel(Humanize(tag))
  {
    HumanizeUserTask(tag);
    LowerAppend([tag[0]], "ser Task");
    assert Lower("ser Task") == "ser task";
  }

  /** Exactly two tag names give a label that reads "user task" case-insensitively */
  lemma UserTaskTags(tag: string)
    requires AllWordChars(tag)
    ensures IsUserTaskLabel(Humanize(tag)) <==> tag == "userTask" || tag == "UserTask"
  {
    if IsUserTaskLabel(Humanize(tag)) {
      UserTaskTagsOnly(tag);
    } else if tag == "userTask" || tag == "UserTask" {
      UserTaskTagsLabel(tag);
    }
  }

  // ---------------------------------------------------------------------
  // Task link lookup in the execution history
  // ---------------------------------------------------------------------

  /** `attributes?.elementId === elementId` */
  predicate EntryMatches(e: HistoryEntry, elementId: string) {
    e.attributes.Some? && "elementId" in e.attributes.value
    && e.attributes.value["elementId"] == JString(elementId)
  }

  /** `attributes?.actionCenterTaskLink` */
  function LinkOf(e: HistoryEntry): (r: Option<JsValue>)
  {
    if e.attributes.Some? && "actionCenterTaskLink" in e.attributes.value
    then Some(e.attributes.value["actionCenterTaskLink"])
    else None
  }

  /** `executionHistory.find(...)`, as an index, searching from `from` */
  function FindEntry(history: seq<HistoryEntry>, elementId: string, from: nat): (r: Option<nat>)
    requires from <= |history|
    ensures r.Some? ==> from <= r.value < |history| && EntryMatches(history[r.value], elementId)
    ensures r.Some? ==> forall i :: from <= i < r.value ==> !EntryMatches(history[i], elementId)
    ensures r.None? ==> forall i :: from <= i < |history| ==> !EntryMatches(history[i], elementId)
    decreases |history| - from
  {
    if from == |history| then None
    else if EntryMatches(history[from], elementId) then Some(from)
    else FindEntry(history, elementId, from + 1)
  }

  // ---------------------------------------------------------------------
  // Correlation of element id, BPMN text and execution history
  // ---------------------------------------------------------------------

  datatype Correlation = Correlation(activityType: string, taskLink: Option<JsValue>)

  /** The task link for an activity label: looked up in the history only when the
      label reads "user task" case-insensitively */
  function TaskLink(activity: string, id: string, history: seq<HistoryEntry>): (r: Option<JsValue>)
    ensures r.Some? ==> IsUserTaskLabel(activity) && |history| > 0
  {
    if IsUserTaskLabel(activity) && |history| > 0 then
      match FindEntry(history, id, 0)
      case Some(j) => LinkOf(history[j])
      case None => None
    else
      None
  }

  /** The activity label and task link derived from the last element id, the BPMN
      text and the history */
  function Correlate(elementId: Option<string>, bpmn: Option<string>, history: seq<HistoryEntry>): (r: Correlation)
    ensures r.taskLink.Some? ==> Present(elementId) && Present(bpmn) && IsUserTaskLabel(r.activityType)
  {
    match MatchedTag(elementId, bpmn)
    case None => Correlation(Unknown, None)
    case Some(tag) =>
      var activityType := Humanize(tag);
      Correlation(activityType, TaskLink(activityType, elementId.value, history))
  }

  /** The BPMN tag matched for the element, when both inputs are present */
  function MatchedTag(elementId: Option<string>, bpmn: Option<string>): (r: Option<string>)
    ensures r.Some? ==> Present(elementId) && Present(bpmn) && |r.value| > 0 && AllWordChars(r.value)
    ensures Present(elementId) && Present(bpmn) ==> r == FindTag(bpmn.value, elementId.value)
  {
    if Present(elementId) && Present(bpmn) then FindTag(bpmn.value, elementId.value) else None
  }

  /** "Unknown" whenever the element id or the BPMN text is missing, or no tag matches;
      otherwise the humanised tag */
  lemma CorrelateActivity(elementId: Option<string>, bpmn: Option<string>, history: seq<HistoryEntry>)
    ensures var r := Correlate(elementId, bpmn, history);
      && (MatchedTag(elementId, bpmn).None? ==> r == Correlation(Unknown, None))
      && (MatchedTag(elementId, bpmn).Some? ==> r.activityType == Humanize(MatchedTag(elementId, bpmn).value))
  {
  }

  /** Without a non-empty element id and BPMN text the activity stays "Unknown" and
      there is no task link */
  lemma CorrelateMissingInput(elementId: Option<string>, bpmn: Option<string>, history: seq<HistoryEntry>)
    requires !Present(elementId) || !Present(bpmn)
    ensures Correlate(elementId, bpmn, history) == Correlation(Unknown, None)
  {
  }

  /** Whether `label.toLowerCase() === 'user task'` */
  predicate IsUserTaskLabel(text: string) {
    Lower(text) == "user task"
  }

  /** The two tag names whose label is a user task */
  predicate IsUserTaskTag(tag: Option<string>) {
    tag == Some("userTask") || tag == Some("UserTask")
  }

  /** `j` is the first history entry whose element id matches */
  predicate FirstEntry(history: seq<HistoryEntry>, elementId: string, j: int) {
    && 0 <= j < |history| && EntryMatches(history[j], elementId)
    && forall i :: 0 <= i < j ==> !EntryMatches(history[i], elementId)
  }

  /** A link is only ever the link of the first history entry whose element id matches */
  lemma {:induction false} TaskLinkFirst(activity: string, id: string, history: seq<HistoryEntry>)
    ensures var r := TaskLink(activity, id, history);
      r.Some? ==> IsUserTaskLabel(activity) && exists j :: FirstEntry(history, id, j) && r == LinkOf(history[j])
  {
    var k := FindEntry(history, id, 0);
    if TaskLink(activity, id, history).Some? {
      assert FirstEntry(history, id, k.value);
    }
  }

  /** For a user-task label the link of the first matching history entry is taken */
  lemma {:induction false} TaskLinkTaken(activity: string, id: string, history: seq<HistoryEntry>, j: int)
    requires IsUserTaskLabel(activity) && FirstEntry(history, id, j)
    ensures TaskLink(activity, id, history) == LinkOf(history[j])
  {
    var k := FindEntry(history, id, 0);
    assert k == Some(j);
  }

  /** A task link is set only for the tags "userTask"/"UserTask", and then it is the
      link of the first history entry whose element id matches */
  lemma CorrelateTaskLinkOnly(elementId: Option<string>, bpmn: Option<string>, history: seq<HistoryEntry>)
    ensures var r := Correlate(elementId, bpmn, history);
      r.taskLink.Some? ==>
        && IsUserTaskTag(MatchedTag(elementId, bpmn))
        && exists j :: FirstEntry(history, elementId.value, j) && r.taskLink == LinkOf(history[j])
  {
    var tag := MatchedTag(elementId, bpmn);
    if tag.Some? {
      TaskLinkFirst(Humanize(tag.value), elementId.value, history);
      UserTaskTags(tag.value);
    }
  }

  /** For the tags "userTask"/"UserTask" the link of the first matching history
      entry is taken */
  lemma CorrelateTaskLinkTaken(elementId: Option<string>, bpmn: Option<string>, history: seq<HistoryEntry>, j: int)
    requires IsUserTaskTag(MatchedTag(elementId, bpmn))
    requires FirstEntry(history, elementId.value, j)
    ensures Correlate(elementId, bpmn, history).taskLink == LinkOf(history[j])
  {
    var tag := MatchedTag(elementId, bpmn);
    UserTaskTags(tag.value);
    TaskLinkTaken(Humanize(tag.value), elementId.value, history, j);
  }

  // ---------------------------------------------------------------------
  // The whole derivation
  // ---------------------------------------------------------------------

  /** The variables step: last element id, the two filters, grouping by source. The
      element id is read before the grouping, so it survives a grouping that throws. */
  method ProcessVariables(response: VariablesResponse) returns (elementId: Option<string>, groups: Option<Groups>)
    ensures elementId == LastElementId(response.elements)
    ensures var survivors := FilterVariables(response.globalVariables);
      && (groups.None? <==> NamesInheritedKey(survivors))
      && (groups.Some? ==> Grouped(survivors, groups.value) && SumSizes(groups.value) == |survivors|)
  {
    elementId := LastElementId(response.elements);
    groups := GroupBySource(FilterVariables(response.globalVariables));
  }

  /** `fetchInstanceDetails` once every remote call has settled. `ready` stands for
      "the instance service exists"; without it the handler returns at once and no
      pane is published (None). */
  method FetchInstanceDetails(
    ready: bool,
    instance: ProcessInstance,
    variables: Option<VariablesResponse>,
    bpmn: Option<string>,
    history: Option<seq<HistoryEntry>>)
    returns (published: Option<Detail>)
    ensures published.Some? <==> ready
    ensures published.Some? ==> var d := published.value;
      && !d.loading
      && d.requestor == instance.startedByUser
      && d.endDate == EndDate(instance.completedTime)
    ensures published.Some? ==> var d := published.value;
      d.variables.Some? <==>
        variables.Some? && !NamesInheritedKey(FilterVariables(variables.value.globalVariables))
    ensures published.Some? && published.value.variables.Some? ==>
      var survivors := FilterVariables(variables.value.globalVariables);
      var groups := published.value.variables.value;
      Grouped(survivors, groups) && SumSizes(groups) == |survivors|
    ensures published.Some? ==>
      Correlation(published.value.activityType, published.value.taskLink)
      == Correlate(ElementIdOf(variables), bpmn, history.GetOr([]))
  {
    if !ready {
      return None;
    }
    var elementId: Option<string> := None;
    var grouped: Option<Groups> := None;
    if variables.Some? {
      var id, groups := ProcessVariables(variables.value);
      elementId := id;
      grouped := groups;
    }
    var c := Correlate(elementId, bpmn, history.GetOr([]));
    published := Some(Detail(false, instance.startedByUser, EndDate(instance.completedTime),
                             c.activityType, c.taskLink, grouped));
  }

  /** The Tasks panel of the details view: the link is offered only when the activity
      reads "user task" and the stored link is truthy, so a link that is null,
      undefined or "" shows as no link at all */
  function ShownLink(d: Detail): (r: Option<JsValue>)
    ensures r.Some? <==> IsUserTaskLabel(d.activityType) && d.taskLink.Some? && JsTruthy(d.taskLink.value)
    ensures r.Some? ==> r == d.taskLink
  {
    if IsUserTaskLabel(d.activityType) && d.taskLink.Some? && JsTruthy(d.taskLink.value)
    then d.taskLink
    else None
  }

  /** For a pane built by the correlation the label test is already implied by the
      link, so a link is shown exactly when the stored link is truthy */
  lemma ShownLinkOfCorrelation(d: Detail, elementId: Option<string>, bpmn: Option<string>, history: seq<HistoryEntry>)
    requires Correlation(d.activityType, d.taskLink) == Correlate(elementId, bpmn, history)
    ensures ShownLink(d).Some? <==> d.taskLink.Some? && JsTruthy(d.taskLink.value)
  {
  }

  /** A user-task pane whose link attribute holds null, undefined or "" shows no link */
  lemma FalsyLinkHidden(d: Detail)
    requires d.taskLink == Some(JNull) || d.taskLink == Some(JUndefined) || d.taskLink == Some(JString(""))
    ensures ShownLink(d).None?
  {
  }

  // ---------------------------------------------------------------------
  // Worked examples
  // ---------------------------------------------------------------------

  /** An int32 variable with a value is kept under its source; an `any` variable
      holding null is dropped */
  lemma FilterGroupExample()
    ensures var vs := [Variable("x", JString("5"), Some("int32"), Some("Input")),
                       Variable("y", JNull, Some("any"), Some("Input"))];
      var survivors := FilterVariables(vs);
      && KeysOf(survivors) == {"Input"}
      && EntriesFor(survivors, "Input") == [Entry("x", "5", Some("int32"))]
  {
    var vs := [Variable("x", JString("5"), Some("int32"), Some("Input")),
               Variable("y", JNull, Some("any"), Some("Input"))];
    assert Lower("int32") == "int32";
    assert Trim("5") == "5";
    assert Survives(vs[0]);
    assert !Survives(vs[1]);
    assert FilterVariables(vs) == [vs[0]];
  }

  /** A shown variable whose source is "constructor" makes the grouping throw, so the
      pane gets no variables at all */
  lemma InheritedSourceExample()
    ensures NamesInheritedKey(FilterVariables([Variable("x", JString("5"), Some("int32"), Some("constructor"))]))
  {
    var v := Variable("x", JString("5"), Some("int32"), Some("constructor"));
    assert Lower("int32") == "int32";
    assert Trim("5") == "5";
    assert Survives(v);
    assert FilterVariables([v]) == [v];
    assert GroupKey(FilterVariables([v])[0]) in InheritedKeys;
  }

  /** An empty array renders as "" and is filtered out like an empty string */
  lemma EmptyArrayDropped(v: Variable)
    requires v.value == JArray([])
    ensures !Survives(v)
  {
    assert Trim("") == "";
  }

  /** The tag pattern finds the user task that carries the element id */
  lemma FindTagExample()
    ensures FindTag("<bpmn:userTask id=\"elem1\">", "elem1") == Some("userTask")
  {
    var xml := "<bpmn:userTask id=\"elem1\">";
    assert xml[0..6] == TagOpen;
    assert xml[6..14] == "userTask";
    assert xml[14] == ' ';
    assert xml[15..24] == IdOpen + "elem1";
    assert xml[24] == '"';
    MatchAtComplete(xml, 0, "elem1", "userTask", 1);
  }

  /** A user task whose history entry carries the link: the link is taken */
  lemma TaskLinkExample()
    ensures var entry := HistoryEntry(Some(map["elementId" := JString("elem1"),
               "actionCenterTaskLink" := JString("https://host/org/tenant/actions/x/tasks/99")]));
      TaskLink("user Task", "elem1", [entry]) == Some(JString("https://host/org/tenant/actions/x/tasks/99"))
  {
    assert IsUserTaskLabel("user Task") by {
      assert Lower("user Task") == "user task";
    }
  }
}
