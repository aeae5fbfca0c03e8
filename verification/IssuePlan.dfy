/** Planning an issue edit: the writes that turn the issue as read into the issue as wanted. */
module IssuePlan {
  import opened Text
  import opened IssueModel

  datatype Mode = Keep | Set | Add | Remove

  datatype Intent = Intent(
    title: Option<Bytes>, body: Option<Bytes>,
    assigneeMode: Mode, assignees: seq<Bytes>, labelMode: Mode, labels: seq<Bytes>)

  datatype TextEdit = TextEdit(title: Bytes, body: Option<Bytes>)

  datatype Plan = Plan(
    text: Option<TextEdit>, removeAssignees: seq<Bytes>, addAssignees: seq<Bytes>,
    addLabelIDs: seq<int>, removeLabelIDs: seq<int>)

  predicate Empty(plan: Plan) {
    plan.text.None? && plan.removeAssignees == [] && plan.addAssignees == [] && plan.addLabelIDs == [] &&
        plan.removeLabelIDs == []
  }

  // ----- satisfaction -----

  predicate TextDiffers(intent: Intent, issue: Issue) {
    (intent.title.Some? && issue.title != intent.title.value) || (intent.body.Some? && issue.body != intent.body.value)
  }

  /** editSatisfied, with Go's name sets. */
  predicate EditSatisfied(intent: Intent, issue: Issue) {
    && !TextDiffers(intent, issue)
    && (var current, requested := ToSet(issue.assignees), ToSet(intent.assignees);
        match intent.assigneeMode
        case Keep => true
        case Set => |current| == |requested| && requested <= current
        case Add => requested <= current
        case Remove => requested !! current)
    && (intent.labelMode == Add ==> ToSet(intent.labels) <= ToSet(issue.labels))
    && (intent.labelMode == Remove ==> ToSet(intent.labels) !! ToSet(issue.labels))
  }

  /** The collection a mode asks for. */
  function Target(mode: Mode, current: set<Bytes>, requested: set<Bytes>): set<Bytes> {
    match mode
    case Keep => current
    case Set => requested
    case Add => current + requested
    case Remove => current - requested
  }

  /** Labels can only be added or removed. */
  predicate ValidIntent(intent: Intent) {
    intent.labelMode != Set
  }

  lemma SubsetOfSameSize<T>(a: set<T>, b: set<T>)
    requires a <= b && |a| == |b|
    ensures a == b
  {
    assert |b - a| == |b| - |a|;
  }

  /** An issue satisfies an intent exactly when it already is what the intent asks for. */
  lemma SatisfiedIff(intent: Intent, issue: Issue)
    requires ValidIntent(intent)
    ensures EditSatisfied(intent, issue) <==>
            && (intent.title.Some? ==> issue.title == intent.title.value)
            && (intent.body.Some? ==> issue.body == intent.body.value)
            && Target(intent.assigneeMode, ToSet(issue.assignees), ToSet(intent.assignees)) == ToSet(issue.assignees)
            && Target(intent.labelMode, ToSet(issue.labels), ToSet(intent.labels)) == ToSet(issue.labels)
  {
    var current, requested := ToSet(issue.assignees), ToSet(intent.assignees);
    if intent.assigneeMode == Set && |current| == |requested| && requested <= current {
      SubsetOfSameSize(requested, current);
    }
  }

  // ----- sorted names -----

  /** Go's string order: bytes, left to right. */
  predicate Less(a: Bytes, b: Bytes) {
    b != "" && (a == "" || a[0] < b[0] || (a[0] == b[0] && Less(a[1..], b[1..])))
  }

  lemma {:induction false} LessTotal(a: Bytes, b: Bytes)
    ensures !(Less(a, b) && Less(b, a)) && !Less(a, a)
    ensures a != b ==> Less(a, b) || Less(b, a)
  {
    if a != "" {
      LessTotal(a[1..], a[1..]);
    }
    if a != "" && b != "" {
      LessTotal(a[1..], b[1..]);
      assert a == [a[0]] + a[1..] && b == [b[0]] + b[1..];
    }
  }

  lemma {:induction false} LessTransitive(a: Bytes, b: Bytes, c: Bytes)
    requires Less(a, b) && Less(b, c)
    ensures Less(a, c)
  {
    if a != "" && a[0] == b[0] == c[0] {
      LessTransitive(a[1..], b[1..], c[1..]);
    }
  }

  predicate Sorted(names: seq<Bytes>) {
    forall i, j :: 0 <= i < j < |names| ==> Less(names[i], names[j])
  }

  lemma SortedTail(names: seq<Bytes>)
    requires Sorted(names) && names != []
    ensures Sorted(names[1..]) && ToSet(names[1..]) == ToSet(names) - {names[0]}
    ensures forall name :: name in names[1..] ==> Less(names[0], name)
  {
    assert names == [names[0]] + names[1..];
    forall name | name in names[1..]
      ensures Less(names[0], name) && name != names[0]
    {
      var i :| 1 <= i < |names| && names[i] == name;
      LessTotal(name, name);
    }
  }

  lemma EmptyIff<T>(s: seq<T>)
    ensures s == [] <==> ToSet(s) == {}
  {
    if s != [] {
      assert s[0] in ToSet(s);
    }
  }

  /** There is only one way to sort a set of names, whatever order a map yields them in. */
  lemma {:induction false} SortedUnique(a: seq<Bytes>, b: seq<Bytes>)
    requires Sorted(a) && Sorted(b) && ToSet(a) == ToSet(b)
    ensures a == b
  {
    if a == [] || b == [] {
      EmptyIff(a);
      EmptyIff(b);
    } else {
      SortedTail(a);
      SortedTail(b);
      assert a[0] in ToSet(b) && b[0] in ToSet(a);
      assert a == [a[0]] + a[1..] && b == [b[0]] + b[1..];
      LessTotal(a[0], b[0]);
      assert a[0] == b[0];
      SortedUnique(a[1..], b[1..]);
    }
  }

  function Insert(name: Bytes, names: seq<Bytes>): seq<Bytes> {
    if names == [] || Less(name, names[0]) then [name] + names else [names[0]] + Insert(name, names[1..])
  }

  lemma {:induction false} InsertSorted(name: Bytes, names: seq<Bytes>)
    requires Sorted(names) && name !in names
    ensures Sorted(Insert(name, names)) && ToSet(Insert(name, names)) == ToSet(names) + {name}
  {
    var r := Insert(name, names);
    if names == [] {
    } else if Less(name, names[0]) {
      forall j | 0 <= j < |names|
        ensures Less(name, names[j])
      {
        if j > 0 {
          LessTransitive(name, names[0], names[j]);
        }
      }
    } else {
      var head, tail := names[0], names[1..];
      SortedTail(names);
      LessTotal(name, head);
      assert names == [head] + tail;
      InsertSorted(name, tail);
      var rest := Insert(name, tail);
      forall j | 0 <= j < |rest|
        ensures Less(head, rest[j])
      {
        assert rest[j] in ToSet(rest);
      }
      assert ToSet([head] + rest) == {head} + ToSet(rest);
    }
  }

  lemma {:induction false} SortExists(names: set<Bytes>)
    ensures exists s :: Sorted(s) && ToSet(s) == names
  {
    if names == {} {
      assert Sorted([]) && ToSet<Bytes>([]) == {};
    } else {
      var name :| name in names;
      SortExists(names - {name});
      var s :| Sorted(s) && ToSet(s) == names - {name};
      assert name !in s by { assert name !in ToSet(s); }
      InsertSorted(name, s);
      assert ToSet(Insert(name, s)) == names;
    }
  }

  /** The names of a set in order. */
  ghost function Sort(names: set<Bytes>): (s: seq<Bytes>)
    ensures Sorted(s) && ToSet(s) == names
    ensures s == [] <==> names == {}
  {
    SortExists(names);
    var s :| Sorted(s) && ToSet(s) == names;
    EmptyIff(s);
    s
  }

  /** Collecting names in map iteration order and sorting them: the order of the map does not matter. */
  method CollectSorted(names: set<Bytes>) returns (s: seq<Bytes>)
    ensures s == Sort(names)
  {
    s := [];
    var todo := names;
    while todo != {}
      invariant todo <= names && Sorted(s) && ToSet(s) == names - todo
    {
      var name :| name in todo;
      assert name !in s by { assert name !in ToSet(s); }
      InsertSorted(name, s);
      s := Insert(name, s);
      todo := todo - {name};
    }
    SortedUnique(s, Sort(names));
  }

  // ----- planning -----

  function TextOf(intent: Intent, issue: Issue): Option<TextEdit> {
    if !TextDiffers(intent, issue) then None
    else Some(TextEdit(if intent.title.Some? then intent.title.value else issue.title, intent.body))
  }

  function Leaving(mode: Mode, current: set<Bytes>, requested: set<Bytes>): set<Bytes> {
    match mode
    case Set => current - requested
    case Remove => requested * current
    case _ => {}
  }

  function Joining(mode: Mode, current: set<Bytes>, requested: set<Bytes>): set<Bytes> {
    if mode == Set || mode == Add then requested - current else {}
  }

  predicate AllKnown(names: set<Bytes>, ids: map<Bytes, int>) {
    forall name :: name in names ==> Lookup(ids, name) > 0
  }

  function IDsOf(names: seq<Bytes>, ids: map<Bytes, int>): (r: seq<int>)
    ensures |r| == |names| && forall i :: 0 <= i < |names| ==> r[i] == Lookup(ids, names[i])
  {
    seq(|names|, i requires 0 <= i < |names| => Lookup(ids, names[i]))
  }

  /** What planIssueEdit returns, with `catalog` the label ids collected beforehand. */
  ghost function PlanOf(intent: Intent, issue: Issue, catalog: map<Bytes, int>): Option<Plan> {
    var assignees, wanted := ToSet(issue.assignees), ToSet(intent.assignees);
    var labels, asked := ToSet(issue.labels), ToSet(intent.labels);
    var add := if intent.labelMode == Add then asked - labels else {};
    var remove := if intent.labelMode == Remove then asked * labels else {};
    if !AllKnown(add, catalog) || !AllKnown(remove, issue.labelIDs) then None
    else Some(Plan(TextOf(intent, issue),
                   Sort(Leaving(intent.assigneeMode, assignees, wanted)),
                   Sort(Joining(intent.assigneeMode, assignees, wanted)),
                   IDsOf(Sort(add), catalog), IDsOf(Sort(remove), issue.labelIDs)))
  }

  method ResolveIDs(names: seq<Bytes>, ids: map<Bytes, int>) returns (r: Option<seq<int>>)
    ensures r.Some? <==> AllKnown(ToSet(names), ids)
    ensures r.Some? ==> r.value == IDsOf(names, ids)
  {
    var out: seq<int> := [];
    var i := 0;
    while i < |names|
      invariant 0 <= i <= |names| && |out| == i
      invariant forall j :: 0 <= j < i ==> out[j] == Lookup(ids, names[j]) && out[j] > 0
    {
      var id := Lookup(ids, names[i]);
      if id <= 0 {
        assert names[i] in ToSet(names);
        return None;
      }
      out := out + [id];
      i := i + 1;
    }
    return Some(out);
  }

  /** planIssueEdit. */
  method PlanIssueEdit(intent: Intent, issue: Issue, catalog: map<Bytes, int>) returns (r: Option<Plan>)
    requires ValidIntent(intent)
    ensures r == PlanOf(intent, issue, catalog)
  {
    var text := TextOf(intent, issue);
    var current, target := ToSet(issue.assignees), ToSet(intent.assignees);
    var removeAssignees := CollectSorted(Leaving(intent.assigneeMode, current, target));
    var addAssignees := CollectSorted(Joining(intent.assigneeMode, current, target));
    current, target := ToSet(issue.labels), ToSet(intent.labels);
    var addNames := CollectSorted(if intent.labelMode == Add then target - current else {});
    var removeNames := CollectSorted(if intent.labelMode == Remove then target * current else {});
    var addIDs := ResolveIDs(addNames, catalog);
    if addIDs.None? {
      return None;
    }
    var removeIDs := ResolveIDs(removeNames, issue.labelIDs);
    if removeIDs.None? {
      return None;
    }
    return Some(Plan(text, removeAssignees, addAssignees, addIDs.value, removeIDs.value));
  }

  /** A plan is empty exactly when there is nothing to do. */
  lemma PlanEmptyIff(intent: Intent, issue: Issue, catalog: map<Bytes, int>)
    requires ValidIntent(intent) && PlanOf(intent, issue, catalog).Some?
    ensures Empty(PlanOf(intent, issue, catalog).value) <==> EditSatisfied(intent, issue)
  {
    SatisfiedIff(intent, issue);
    var current, requested := ToSet(issue.assignees), ToSet(intent.assignees);
    var labels, asked := ToSet(issue.labels), ToSet(intent.labels);
    var plan := PlanOf(intent, issue, catalog).value;
    assert plan.removeAssignees == [] <==> Leaving(intent.assigneeMode, current, requested) == {};
    assert plan.addAssignees == [] <==> Joining(intent.assigneeMode, current, requested) == {};
    TargetIff(intent.assigneeMode, current, requested);
    TargetIff(intent.labelMode, labels, asked);
  }

  lemma TargetIff(mode: Mode, current: set<Bytes>, requested: set<Bytes>)
    ensures Target(mode, current, requested) == (current - Leaving(mode, current, requested)) +
        Joining(mode, current, requested)
    ensures Target(mode, current, requested) == current <==>
            Leaving(mode, current, requested) == {} && Joining(mode, current, requested) == {}
  {
    assert mode == Set && current - requested == {} && requested - current == {} ==> requested == current;
    assert mode == Remove && current - requested == current ==> requested * current == {} by {
      if mode == Remove && current - requested == current {
        assert forall x :: x in requested * current ==> x !in current - requested;
      }
    }
  }

  // ----- what the plan does to an issue -----

  datatype Op =
    | EditText(edit: TextEdit)
    | DeleteAssignees(names: seq<Bytes>)
    | AddAssignees(names: seq<Bytes>)
    | AddLabels(ids: seq<int>)
    | DeleteLabel(id: int)

  function Deletions(ids: seq<int>): seq<Op> {
    if ids == [] then [] else [DeleteLabel(ids[0])] + Deletions(ids[1..])
  }

  /** The writes of a plan, in the order they are made. */
  function Ops(plan: Plan): seq<Op> {
    (if plan.text.Some? then [EditText(plan.text.value)] else [])
    + (if plan.removeAssignees != [] then [DeleteAssignees(plan.removeAssignees)] else [])
    + (if plan.addAssignees != [] then [AddAssignees(plan.addAssignees)] else [])
    + (if plan.addLabelIDs != [] then [AddLabels(plan.addLabelIDs)] else [])
    + Deletions(plan.removeLabelIDs)
  }

  /** The issue inside a provider that does what it is told. */
  datatype Remote = Remote(title: Bytes, body: Bytes, assignees: set<Bytes>, labels: set<Bytes>)

  function NamesOf(ids: seq<int>, directory: map<int, Bytes>): set<Bytes> {
    set i | 0 <= i < |ids| && ids[i] in directory :: directory[ids[i]]
  }

  /** One write, where `directory` says which label an id stands for. */
  function Apply(r: Remote, op: Op, directory: map<int, Bytes>): Remote {
    match op
    case EditText(edit) => r.(title := edit.title, body := if edit.body.Some? then edit.body.value else r.body)
    case DeleteAssignees(names) => r.(assignees := r.assignees - ToSet(names))
    case AddAssignees(names) => r.(assignees := r.assignees + ToSet(names))
    case AddLabels(ids) => r.(labels := r.labels + NamesOf(ids, directory))
    case DeleteLabel(id) => if id in directory then r.(labels := r.labels - {directory[id]}) else r
  }

  function ApplyAll(r: Remote, ops: seq<Op>, directory: map<int, Bytes>): Remote
    decreases |ops|
  {
    if ops == [] then r else ApplyAll(Apply(r, ops[0], directory), ops[1..], directory)
  }

  lemma {:induction false} ApplyAppend(r: Remote, a: seq<Op>, b: seq<Op>, directory: map<int, Bytes>)
    ensures ApplyAll(r, a + b, directory) == ApplyAll(ApplyAll(r, a, directory), b, directory)
    decreases |a|
  {
    if a == [] {
      assert a + b == b;
    } else {
      assert (a + b)[1..] == a[1..] + b;
      ApplyAppend(Apply(r, a[0], directory), a[1..], b, directory);
    }
  }

  /** The ids a catalogue gives to names are, for the provider, the ids of those names. */
  predicate Agrees(ids: map<Bytes, int>, directory: map<int, Bytes>) {
    forall name :: name in ids && ids[name] > 0 ==> ids[name] in directory && directory[ids[name]] == name
  }

  lemma NamesBack(names: seq<Bytes>, ids: map<Bytes, int>, directory: map<int, Bytes>)
    requires Agrees(ids, directory) && AllKnown(ToSet(names), ids)
    ensures NamesOf(IDsOf(names, ids), directory) == ToSet(names)
  {
    var r := IDsOf(names, ids);
    forall i | 0 <= i < |names|
      ensures r[i] in directory && directory[r[i]] == names[i]
    {
      assert names[i] in ToSet(names);
    }
  }

  lemma {:induction false} ApplyDeletions(r: Remote, ids: seq<int>, directory: map<int, Bytes>)
    ensures ApplyAll(r, Deletions(ids), directory) == r.(labels := r.labels - NamesOf(ids, directory))
    decreases |ids|
  {
    if ids == [] {
      assert r.labels - NamesOf(ids, directory) == r.labels;
    } else {
      var next := Apply(r, DeleteLabel(ids[0]), directory);
      assert Deletions(ids)[1..] == Deletions(ids[1..]);
      ApplyDeletions(next, ids[1..], directory);
      NamesOfCons(ids, directory);
      assert next.labels - NamesOf(ids[1..], directory) == r.labels - NamesOf(ids, directory);
    }
  }

  lemma NamesOfCons(ids: seq<int>, directory: map<int, Bytes>)
    requires ids != []
    ensures NamesOf(ids, directory) == (if ids[0] in directory then {directory[ids[0]]} else {}) +
        NamesOf(ids[1..], directory)
  {
    var all, rest := NamesOf(ids, directory), NamesOf(ids[1..], directory);
    forall x | x in all
      ensures x in (if ids[0] in directory then {directory[ids[0]]} else {}) + rest
    {
      var i :| 0 <= i < |ids| && ids[i] in directory && directory[ids[i]] == x;
      if i > 0 {
        assert ids[1..][i - 1] == ids[i];
      }
    }
    forall x | x in rest
      ensures x in all
    {
      var i :| 0 <= i < |ids[1..]| && ids[1..][i] in directory && directory[ids[1..][i]] == x;
      assert ids[i + 1] == ids[1..][i];
    }
  }

  function RemoteOf(issue: Issue): Remote {
    Remote(issue.title, issue.body, ToSet(issue.assignees), ToSet(issue.labels))
  }

  /** The issue the intent describes: what it mentions as asked, everything else as it was. */
  function Wanted(intent: Intent, issue: Issue): Remote {
    Remote(if intent.title.Some? then intent.title.value else issue.title,
           if intent.body.Some? then intent.body.value else issue.body,
           Target(intent.assigneeMode, ToSet(issue.assignees), ToSet(intent.assignees)),
           Target(intent.labelMode, ToSet(issue.labels), ToSet(intent.labels)))
  }

  /** The writes of any plan, applied to any issue. */
  lemma ApplyPlan(r: Remote, plan: Plan, directory: map<int, Bytes>)
    ensures ApplyAll(r, Ops(plan), directory) ==
            Remote(if plan.text.Some? then plan.text.value.title else r.title,
                   if plan.text.Some? && plan.text.value.body.Some? then plan.text.value.body.value else r.body,
                   (r.assignees - ToSet(plan.removeAssignees)) + ToSet(plan.addAssignees),
                   (r.labels + NamesOf(plan.addLabelIDs, directory)) - NamesOf(plan.removeLabelIDs, directory))
  {
    hide ApplyAll, Deletions;
    var t := if plan.text.Some? then [EditText(plan.text.value)] else [];
    var d := if plan.removeAssignees != [] then [DeleteAssignees(plan.removeAssignees)] else [];
    var a := if plan.addAssignees != [] then [AddAssignees(plan.addAssignees)] else [];
    var l := if plan.addLabelIDs != [] then [AddLabels(plan.addLabelIDs)] else [];
    ApplyMaybe(r, EditText(if plan.text.Some? then plan.text.value else TextEdit("", None)), plan.text.Some?,
        directory);
    var r1 := ApplyAll(r, t, directory);
    ApplyMaybe(r1, DeleteAssignees(plan.removeAssignees), plan.removeAssignees != [], directory);
    var r2 := ApplyAll(r1, d, directory);
    ApplyMaybe(r2, AddAssignees(plan.addAssignees), plan.addAssignees != [], directory);
    var r3 := ApplyAll(r2, a, directory);
    ApplyMaybe(r3, AddLabels(plan.addLabelIDs), plan.addLabelIDs != [], directory);
    var r4 := ApplyAll(r3, l, directory);
    ApplyDeletions(r4, plan.removeLabelIDs, directory);
    ApplyAppend(r, t, d, directory);
    ApplyAppend(r, t + d, a, directory);
    ApplyAppend(r, t + d + a, l, directory);
    ApplyAppend(r, t + d + a + l, Deletions(plan.removeLabelIDs), directory);
  }

  /** Carrying out a plan on the issue it was made from yields exactly the wanted issue. */
  lemma PlanCorrect(intent: Intent, issue: Issue, catalog: map<Bytes, int>, directory: map<int, Bytes>)
    requires ValidIntent(intent) && PlanOf(intent, issue, catalog).Some?
    requires Agrees(catalog, directory) && Agrees(issue.labelIDs, directory)
    ensures ApplyAll(RemoteOf(issue), Ops(PlanOf(intent, issue, catalog).value), directory) == Wanted(intent, issue)
  {
    hide ApplyAll, Ops, NamesOf, Lookup, Agrees;
    var plan := PlanOf(intent, issue, catalog).value;
    var labels, asked := ToSet(issue.labels), ToSet(intent.labels);
    var add := if intent.labelMode == Add then asked - labels else {};
    var remove := if intent.labelMode == Remove then asked * labels else {};
    ApplyPlan(RemoteOf(issue), plan, directory);
    NamesBack(Sort(add), catalog, directory);
    NamesBack(Sort(remove), issue.labelIDs, directory);
    TargetIff(intent.assigneeMode, ToSet(issue.assignees), ToSet(intent.assignees));
    assert (labels + add) - remove == Target(intent.labelMode, labels, asked);
  }

  lemma ApplyMaybe(r: Remote, op: Op, needed: bool, directory: map<int, Bytes>)
    ensures ApplyAll(r, if needed then [op] else [], directory) == if needed then Apply(r, op, directory) else r
  {
  }

  /** So the edited issue satisfies the intent. */
  lemma WantedSatisfies(intent: Intent, issue: Issue, after: Issue)
    requires ValidIntent(intent) && RemoteOf(after) == Wanted(intent, issue)
    ensures EditSatisfied(intent, after)
  {
    SatisfiedIff(intent, after);
  }

  // ----- what the plan leaves alone -----

  /** Nothing is written that is not needed: no text edit without a difference, only present assignees and labels are
      taken away, and only absent ones added. */
  lemma PlanMinimal(intent: Intent, issue: Issue, catalog: map<Bytes, int>)
    requires PlanOf(intent, issue, catalog).Some?
    ensures var plan := PlanOf(intent, issue, catalog).value;
            && (plan.text.Some? <==>
                   intent.title !in {None, Some(issue.title)} || intent.body !in {None, Some(issue.body)})
            && (forall name :: name in plan.removeAssignees ==> name in issue.assignees)
            && (forall name :: name in plan.addAssignees ==> name in intent.assignees && name !in issue.assignees)
    ensures var plan := PlanOf(intent, issue, catalog).value;
            && (plan.addLabelIDs != [] ==> exists name :: name in intent.labels && name !in issue.labels)
            && (forall id :: id in plan.removeLabelIDs ==>
                  exists name :: name in intent.labels && name in issue.labels && Lookup(issue.labelIDs, name) == id)
  {
    var plan := PlanOf(intent, issue, catalog).value;
    var remove := if intent.labelMode == Remove then ToSet(intent.labels) * ToSet(issue.labels) else {};
    var add := if intent.labelMode == Add then ToSet(intent.labels) - ToSet(issue.labels) else {};
    SortedNames(Leaving(intent.assigneeMode, ToSet(issue.assignees), ToSet(intent.assignees)));
    SortedNames(Joining(intent.assigneeMode, ToSet(issue.assignees), ToSet(intent.assignees)));
    SortedNames(remove);
    SortedNames(add);
    if plan.addLabelIDs != [] {
      assert Sort(add)[0] in add;
    }
    forall id | id in plan.removeLabelIDs
      ensures exists name :: name in intent.labels && name in issue.labels && Lookup(issue.labelIDs, name) == id
    {
      var i :| 0 <= i < |plan.removeLabelIDs| && plan.removeLabelIDs[i] == id;
      assert Sort(remove)[i] in remove;
    }
  }

  lemma SortedNames(names: set<Bytes>)
    ensures forall name :: name in Sort(names) <==> name in names
  {
    assert ToSet(Sort(names)) == names;
  }

  function Rank(op: Op): nat {
    match op
    case EditText(_) => 0
    case DeleteAssignees(_) => 1
    case AddAssignees(_) => 2
    case AddLabels(_) => 3
    case DeleteLabel(_) => 4
  }

  /** The writes come in a fixed order: text, leaving assignees, joining assignees, new labels, old labels. */
  lemma OpsOrder(plan: Plan)
    ensures forall i, j :: 0 <= i < j < |Ops(plan)| ==> Rank(Ops(plan)[i]) <= Rank(Ops(plan)[j])
  {
    DeletionsRank(plan.removeLabelIDs);
  }

  lemma {:induction false} DeletionsRank(ids: seq<int>)
    ensures |Deletions(ids)| == |ids|
    ensures forall i :: 0 <= i < |ids| ==> Deletions(ids)[i] == DeleteLabel(ids[i])
  {
    if ids != [] {
      DeletionsRank(ids[1..]);
    }
  }

  /** Names are compared byte by byte, and a prefix comes first. */
  lemma {:induction false} LessIs(common: Bytes, a: Bytes, b: Bytes)
    requires b != "" && (a == "" || a[0] < b[0])
    ensures Less(common + a, common + b)
  {
    if common == "" {
      assert common + a == a && common + b == b;
    } else {
      LessIs(common[1..], a, b);
      assert (common + a)[1..] == common[1..] + a && (common + b)[1..] == common[1..] + b;
    }
  }

  // ----- a plan always exists -----

  /** What collecting the catalogue before the first write achieves: an id for every label the intent may have
      to add. */
  predicate Covers(intent: Intent, catalog: map<Bytes, int>) {
    intent.labelMode == Add ==> AllKnown(ToSet(intent.labels), catalog)
  }

  /** With such a catalogue planning cannot fail: not for the issue first read, nor for any later normalized one. */
  lemma PlanExists(intent: Intent, issue: Issue, catalog: map<Bytes, int>)
    requires ValidIntent(intent) && Normalized(issue) && Covers(intent, catalog)
    ensures PlanOf(intent, issue, catalog).Some?
  {
    assert AllKnown(ToSet(issue.labels), issue.labelIDs);
  }
}
