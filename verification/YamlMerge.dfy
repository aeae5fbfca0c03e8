// The merge-key view of a mapping and the null-field test that runs on it (internal/config/decode.go).
module YamlMerge {
  import opened Text
  import opened YamlGraph

  ghost predicate Reaches(g: Graph, n: Id, m: Id) {
    exists p :: PathFrom(g, n, p) && p[|p| - 1] == m
  }

  ghost function Below(g: Graph, n: Id): set<Id> {
    set m | m in g && Reaches(g, n, m)
  }

  /** Following one pointer from a clean node leads to a clean node with strictly less below it. */
  lemma Descend(g: Graph, n: Id, c: Id)
    requires Clean(g, n) && Edge(g, n, c)
    ensures Clean(g, c) && |Below(g, c)| < |Below(g, n)|
  {
    CleanDown(g, n, c, {});
    assert !Cyclic(g, c, {n});
    forall m | m in Below(g, c)
      ensures m in Below(g, n) && m != n
    {
      var q :| PathFrom(g, c, q) && q[|q| - 1] == m;
      Prepend(g, n, c, q);
      assert Avoids(q, {n});
    }
    NodeOnPath(g, n);
    var more := Below(g, n) - Below(g, c);
    assert n in more && Below(g, n) == Below(g, c) + more;
  }

  datatype Entry = Entry(key: string, value: Id)

  ghost predicate Walkable(g: Graph, n: Id) {
    Closed(g) && n in g && Clean(g, n)
  }

  /** The merge-key meaning of a node: its own keys win over merged ones, earlier merges over later ones. A merge value
      is a mapping or a sequence of mappings, either possibly through aliases. */
  ghost function Meaning(g: Graph, n: Id, merging: bool): (m: map<string, Id>)
    requires Walkable(g, n)
    ensures forall k :: k in m ==> Walkable(g, m[k])
    decreases |Below(g, n)|, 1, 0
  {
    var v := g[n];
    match v.kind
    case AliasNode =>
      if v.target.None? then map[] else (Descend(g, n, v.target.value); Meaning(g, v.target.value, merging))
    case SequenceNode => if merging then ItemsMeaning(g, n, 0) else map[]
    case MappingNode => MergesMeaning(g, n, 0) + OwnMeaning(g, n, 0)
    case _ => map[]
  }

  ghost function ItemsMeaning(g: Graph, n: Id, i: nat): (m: map<string, Id>)
    requires Walkable(g, n) && !g[n].kind.MappingNode? && i <= |g[n].content|
    ensures forall k :: k in m ==> Walkable(g, m[k])
    decreases |Below(g, n)|, 0, |g[n].content| - i
  {
    if i == |g[n].content| then map[]
    else (Descend(g, n, g[n].content[i]); ItemsMeaning(g, n, i + 1) + Meaning(g, g[n].content[i], false))
  }

  ghost function MergesMeaning(g: Graph, n: Id, i: nat): (m: map<string, Id>)
    requires Walkable(g, n) && g[n].kind.MappingNode? && i <= Pairs(g[n])
    ensures forall k :: k in m ==> Walkable(g, m[k])
    decreases |Below(g, n)|, 0, Pairs(g[n]) - i
  {
    if i == Pairs(g[n]) then map[]
    else if !IsMerge(g, g[n], i) then MergesMeaning(g, n, i + 1)
    else
      assert HasValue(g[n], Value(g[n], i));
      Descend(g, n, Value(g[n], i));
      MergesMeaning(g, n, i + 1) + Meaning(g, Value(g[n], i), true)
  }

  ghost function OwnMeaning(g: Graph, n: Id, i: nat): (m: map<string, Id>)
    requires Walkable(g, n) && g[n].kind.MappingNode? && i <= Pairs(g[n])
    ensures forall k :: k in m ==> Walkable(g, m[k])
    decreases Pairs(g[n]) - i
  {
    if i == Pairs(g[n]) then map[]
    else if IsMerge(g, g[n], i) then OwnMeaning(g, n, i + 1)
    else
      assert HasValue(g[n], Value(g[n], i));
      Descend(g, n, Value(g[n], i));
      OwnMeaning(g, n, i + 1)[Key(g, g[n], i) := Value(g[n], i)]
  }

  /** Everything a collection meets, in the order it meets it. */
  ghost function Candidates(g: Graph, n: Id, merging: bool): seq<Entry>
    requires Walkable(g, n)
    decreases |Below(g, n)|, 1, 0
  {
    var v := g[n];
    match v.kind
    case AliasNode =>
      if v.target.None? then [] else (Descend(g, n, v.target.value); Candidates(g, v.target.value, merging))
    case SequenceNode => if merging then ItemCandidates(g, n, 0) else []
    case MappingNode => OwnCandidates(g, g[n], 0) + MergeCandidates(g, n, 0)
    case _ => []
  }

  ghost function ItemCandidates(g: Graph, n: Id, i: nat): seq<Entry>
    requires Walkable(g, n) && !g[n].kind.MappingNode? && i <= |g[n].content|
    decreases |Below(g, n)|, 0, |g[n].content| - i
  {
    if i == |g[n].content| then []
    else (Descend(g, n, g[n].content[i]); Candidates(g, g[n].content[i], false) + ItemCandidates(g, n, i + 1))
  }

  ghost function MergeCandidates(g: Graph, n: Id, i: nat): seq<Entry>
    requires Walkable(g, n) && g[n].kind.MappingNode? && i <= Pairs(g[n])
    decreases |Below(g, n)|, 0, Pairs(g[n]) - i
  {
    if i == Pairs(g[n]) then []
    else if !IsMerge(g, g[n], i) then MergeCandidates(g, n, i + 1)
    else
      assert HasValue(g[n], Value(g[n], i));
      Descend(g, n, Value(g[n], i));
      Candidates(g, Value(g[n], i), true) + MergeCandidates(g, n, i + 1)
  }

  ghost function OwnCandidates(g: Graph, v: Node, i: nat): seq<Entry>
    requires i <= Pairs(v)
    decreases Pairs(v) - i
  {
    if i == Pairs(v) then []
    else if IsMerge(g, v, i) then OwnCandidates(g, v, i + 1)
    else [Entry(Key(g, v, i), Value(v, i))] + OwnCandidates(g, v, i + 1)
  }

  function KeysOf(entries: seq<Entry>): set<string> {
    if entries == [] then {} else {entries[0].key} + KeysOf(entries[1..])
  }

  predicate UniqueKeys(entries: seq<Entry>) {
    forall i, j :: 0 <= i < j < |entries| ==> entries[i].key != entries[j].key
  }

  /** The entries as a map, where the first entry of a key wins. */
  function AsMap(entries: seq<Entry>): map<string, Id> {
    if entries == [] then map[] else AsMap(entries[1..])[entries[0].key := entries[0].value]
  }

  /** Each key's first entry, leaving out the keys already seen. */
  function Fresh(seen: set<string>, entries: seq<Entry>): seq<Entry>
    decreases |entries|
  {
    if entries == [] then []
    else if entries[0].key in seen then Fresh(seen, entries[1..])
    else [entries[0]] + Fresh(seen + {entries[0].key}, entries[1..])
  }

  lemma {:induction false} FreshAppend(seen: set<string>, a: seq<Entry>, b: seq<Entry>)
    ensures Fresh(seen, a + b) == Fresh(seen, a) + Fresh(seen + KeysOf(a), b)
    ensures KeysOf(a + b) == KeysOf(a) + KeysOf(b)
    decreases |a|
  {
    if a == [] {
      assert a + b == b && seen + KeysOf(a) == seen;
    } else {
      var next := seen + {a[0].key};
      assert (a + b)[1..] == a[1..] + b;
      FreshAppend(next, a[1..], b);
      assert next + KeysOf(a[1..]) == seen + KeysOf(a);
      if a[0].key in seen {
        assert next == seen;
      }
    }
  }

  /** What has been collected and seen once `found` has been met too. */
  ghost function Met(entries: seq<Entry>, seen: set<string>, found: seq<Entry>): (seq<Entry>, set<string>) {
    (entries + Fresh(seen, found), seen + KeysOf(found))
  }

  lemma MetNothing(entries: seq<Entry>, seen: set<string>)
    ensures Met(entries, seen, []) == (entries, seen)
  {
    assert entries + [] == entries && seen + {} == seen;
  }

  /** Meeting two runs of candidates is meeting the first and then the second. */
  lemma MetAppend(entries: seq<Entry>, seen: set<string>, a: seq<Entry>, b: seq<Entry>)
    ensures var (e, s) := Met(entries, seen, a);
            Met(entries, seen, a + b) == Met(e, s, b)
  {
    FreshAppend(seen, a, b);
    assert entries + (Fresh(seen, a) + Fresh(seen + KeysOf(a), b)) == entries + Fresh(seen, a) +
        Fresh(seen + KeysOf(a), b);
    assert seen + (KeysOf(a) + KeysOf(b)) == seen + KeysOf(a) + KeysOf(b);
  }

  lemma MetOne(entries: seq<Entry>, seen: set<string>, e: Entry)
    ensures Met(entries, seen, [e]) == if e.key in seen then (entries, seen) else (entries + [e], seen + {e.key})
  {
    assert [e][1..] == [];
    assert KeysOf([e]) == {e.key} + {} == {e.key};
    if e.key in seen {
      assert Fresh(seen, [e]) == [] && seen + {e.key} == seen && entries + [] == entries;
    } else {
      assert Fresh(seen, [e]) == [e] + [] == [e];
    }
  }

  lemma {:induction false} FreshKeys(seen: set<string>, entries: seq<Entry>, i: nat)
    requires i < |Fresh(seen, entries)|
    ensures Fresh(seen, entries)[i].key !in seen
    decreases |entries|
  {
    if entries[0].key in seen {
      FreshKeys(seen, entries[1..], i);
    } else if i > 0 {
      FreshKeys(seen + {entries[0].key}, entries[1..], i - 1);
    }
  }

  lemma {:induction false} FreshIsMap(seen: set<string>, entries: seq<Entry>)
    ensures UniqueKeys(Fresh(seen, entries))
    ensures AsMap(Fresh(seen, entries)) == AsMap(entries) - seen
    decreases |entries|
  {
    if entries != [] {
      var e := entries[0];
      if e.key in seen {
        FreshIsMap(seen, entries[1..]);
      } else {
        var rest := Fresh(seen + {e.key}, entries[1..]);
        FreshIsMap(seen + {e.key}, entries[1..]);
        assert ([e] + rest)[1..] == rest;
        forall i | 0 <= i < |rest|
          ensures rest[i].key != e.key
        {
          FreshKeys(seen + {e.key}, entries[1..], i);
        }
      }
    }
  }

  lemma {:induction false} AsMapAppend(a: seq<Entry>, b: seq<Entry>)
    ensures AsMap(a + b) == AsMap(b) + AsMap(a)
  {
    if a == [] {
      assert a + b == b;
    } else {
      assert (a + b)[1..] == a[1..] + b;
      AsMapAppend(a[1..], b);
    }
  }

  /** The candidates in order, first entry winning, are the merge-key meaning. */
  lemma {:induction false} CandidatesMean(g: Graph, n: Id, merging: bool)
    requires Walkable(g, n)
    ensures AsMap(Candidates(g, n, merging)) == Meaning(g, n, merging)
    decreases |Below(g, n)|, 1, 0
  {
    var v := g[n];
    match v.kind
    case AliasNode =>
      if v.target.Some? {
        Descend(g, n, v.target.value);
        CandidatesMean(g, v.target.value, merging);
      }
    case SequenceNode =>
      if merging {
        ItemsMean(g, n, 0);
      }
    case MappingNode =>
      OwnMean(g, n, 0);
      MergesMean(g, n, 0);
      AsMapAppend(OwnCandidates(g, v, 0), MergeCandidates(g, n, 0));
    case _ =>
  }

  lemma {:induction false} ItemsMean(g: Graph, n: Id, i: nat)
    requires Walkable(g, n) && !g[n].kind.MappingNode? && i <= |g[n].content|
    ensures AsMap(ItemCandidates(g, n, i)) == ItemsMeaning(g, n, i)
    decreases |Below(g, n)|, 0, |g[n].content| - i
  {
    if i < |g[n].content| {
      var c := g[n].content[i];
      Descend(g, n, c);
      CandidatesMean(g, c, false);
      ItemsMean(g, n, i + 1);
      AsMapAppend(Candidates(g, c, false), ItemCandidates(g, n, i + 1));
    }
  }

  lemma {:induction false} MergesMean(g: Graph, n: Id, i: nat)
    requires Walkable(g, n) && g[n].kind.MappingNode? && i <= Pairs(g[n])
    ensures AsMap(MergeCandidates(g, n, i)) == MergesMeaning(g, n, i)
    decreases |Below(g, n)|, 0, Pairs(g[n]) - i
  {
    if i < Pairs(g[n]) {
      MergesMean(g, n, i + 1);
      if IsMerge(g, g[n], i) {
        var c := Value(g[n], i);
        assert HasValue(g[n], c);
        Descend(g, n, c);
        CandidatesMean(g, c, true);
        AsMapAppend(Candidates(g, c, true), MergeCandidates(g, n, i + 1));
      }
    }
  }

  lemma {:induction false} OwnMean(g: Graph, n: Id, i: nat)
    requires Walkable(g, n) && g[n].kind.MappingNode? && i <= Pairs(g[n])
    ensures AsMap(OwnCandidates(g, g[n], i)) == OwnMeaning(g, n, i)
    decreases Pairs(g[n]) - i
  {
    if i < Pairs(g[n]) {
      OwnMean(g, n, i + 1);
      if !IsMerge(g, g[n], i) {
        var rest := OwnCandidates(g, g[n], i + 1);
        assert ([Entry(Key(g, g[n], i), Value(g[n], i))] + rest)[1..] == rest;
      }
    }
  }

  // ----- collecting -----

  lemma Onward(g: Graph, n: Id, c: Id, before: set<Id>)
    requires Edge(g, n, c) && Clean(g, n) && !Cyclic(g, n, before)
    ensures Clean(g, c) && !Cyclic(g, c, before + {n})
  {
    Descend(g, n, c);
    CleanDown(g, n, c, before);
  }

  lemma OnItself(g: Graph, n: Id, active: set<Id>)
    requires n in g && n in active
    ensures Cyclic(g, n, active)
  {
    NodeOnPath(g, n);
    assert !Avoids([n], active);
  }

  class Collector {
    const g: Graph
    var active: set<Id>
    var seen: set<string>
    var entries: seq<Entry>

    constructor (g: Graph)
      ensures this.g == g && active == {} && seen == {} && entries == []
    {
      this.g := g;
      active, seen, entries := {}, {}, [];
    }

    /** Everything new in `found` has been taken up. */
    twostate predicate Took(found: seq<Entry>)
      reads this
    {
      (entries, seen) == Met(old(entries), old(seen), found)
    }

    /** On a graph the duplicate-key walk has passed, no cycle is reported and exactly the new candidates are taken. */
    method Collect(node: Option<Id>, allowSequence: bool) returns (cyclic: bool)
      requires Closed(g) && (node.Some? ==> node.value in g)
      modifies this
      ensures active == old(active)
      ensures node.None? ==> !cyclic && Took([])
      ensures node.Some? && Clean(g, node.value) && !Cyclic(g, node.value, active) ==>
                !cyclic && Took(Candidates(g, node.value, allowSequence))
      decreases |g.Keys - active|, 0
    {
      hide Met, Cyclic, Clean, Path, Below, ItemCandidates, MergeCandidates, OwnCandidates;
      MetNothing(entries, seen);
      if node.None? {
        return false;
      }
      var n := node.value;
      if n in active {
        OnItself(g, n, active);
        return true;
      }
      SmallerRest(g, n, active);
      ghost var before := active;
      active := active + {n};
      cyclic := false;
      match g[n].kind {
        case AliasNode =>
          if g[n].target.Some? && Clean(g, n) && !Cyclic(g, n, before) {
            Onward(g, n, g[n].target.value, before);
          }
          cyclic := Collect(g[n].target, allowSequence);
        case SequenceNode =>
          if allowSequence {
            cyclic := CollectItems(n, before);
          }
        case MappingNode =>
          CollectOwn(n);
          cyclic := CollectMerges(n, before);
          if Clean(g, n) && !Cyclic(g, n, before) {
            MetAppend(old(entries), old(seen), OwnCandidates(g, g[n], 0), MergeCandidates(g, n, 0));
          }
        case _ =>
      }
      active := active - {n};
    }

    method CollectItems(n: Id, ghost before: set<Id>) returns (cyclic: bool)
      requires Closed(g) && n in g && n !in before && active == before + {n} && g[n].kind.SequenceNode?
      modifies this
      ensures active == old(active)
      ensures Clean(g, n) && !Cyclic(g, n, before) ==> !cyclic && Took(ItemCandidates(g, n, 0))
      decreases |g.Keys - active|, 1
    {
      hide Met, Cyclic, Clean, Path, Below, Candidates, OwnCandidates;
      ghost var clean := Clean(g, n) && !Cyclic(g, n, before);
      var i := 0;
      while i < |g[n].content|
        invariant 0 <= i <= |g[n].content|
        invariant active == before + {n}
        invariant clean ==>
            Met(entries, seen, ItemCandidates(g, n, i)) == Met(old(entries), old(seen), ItemCandidates(g, n, 0))
      {
        if clean {
          Onward(g, n, g[n].content[i], before);
          MetAppend(entries, seen, Candidates(g, g[n].content[i], false), ItemCandidates(g, n, i + 1));
        }
        cyclic := Collect(Some(g[n].content[i]), false);
        if cyclic {
          return;
        }
        i := i + 1;
      }
      MetNothing(entries, seen);
      return false;
    }

    method CollectOwn(n: Id)
      requires Closed(g) && n in g && g[n].kind.MappingNode?
      modifies this
      ensures active == old(active)
      ensures Took(OwnCandidates(g, g[n], 0))
    {
      hide Met, Cyclic, Clean, Path, Below, Candidates, ItemCandidates, MergeCandidates;
      var v := g[n];
      var i := 0;
      while i < Pairs(v)
        invariant 0 <= i <= Pairs(v)
        invariant active == old(active)
        invariant Met(entries, seen, OwnCandidates(g, v, i)) == Met(old(entries), old(seen), OwnCandidates(g, v, 0))
      {
        if !IsMerge(g, v, i) {
          MetOne(entries, seen, Entry(Key(g, v, i), Value(v, i)));
          MetAppend(entries, seen, [Entry(Key(g, v, i), Value(v, i))], OwnCandidates(g, v, i + 1));
          if Key(g, v, i) !in seen {
            seen := seen + {Key(g, v, i)};
            entries := entries + [Entry(Key(g, v, i), Value(v, i))];
          }
        }
        i := i + 1;
      }
      MetNothing(entries, seen);
    }

    method CollectMerges(n: Id, ghost before: set<Id>) returns (cyclic: bool)
      requires Closed(g) && n in g && n !in before && active == before + {n} && g[n].kind.MappingNode?
      modifies this
      ensures active == old(active)
      ensures Clean(g, n) && !Cyclic(g, n, before) ==> !cyclic && Took(MergeCandidates(g, n, 0))
      decreases |g.Keys - active|, 1
    {
      hide Met, Cyclic, Clean, Path, Below, Candidates, OwnCandidates;
      ghost var clean := Clean(g, n) && !Cyclic(g, n, before);
      var v := g[n];
      var i := 0;
      while i < Pairs(v)
        invariant 0 <= i <= Pairs(v)
        invariant active == before + {n}
        invariant clean ==>
            Met(entries, seen, MergeCandidates(g, n, i)) == Met(old(entries), old(seen), MergeCandidates(g, n, 0))
      {
        if IsMerge(g, v, i) {
          if clean {
            assert HasValue(v, Value(v, i));
            Onward(g, n, Value(v, i), before);
            MetAppend(entries, seen, Candidates(g, Value(v, i), true), MergeCandidates(g, n, i + 1));
          }
          cyclic := Collect(Some(Value(v, i)), true);
          if cyclic {
            return;
          }
        }
        i := i + 1;
      }
      MetNothing(entries, seen);
      return false;
    }
  }

  /** The effective mapping of a walked node: its merge-key meaning, each key once. */
  method ResolveEffectiveMapping(g: Graph, n: Id) returns (cyclic: bool, entries: seq<Entry>)
    requires Closed(g) && n in g
    ensures Clean(g, n) ==> !cyclic && UniqueKeys(entries) && AsMap(entries) == Meaning(g, n, false)
  {
    var c := new Collector(g);
    assert Closed(c.g);
    cyclic := c.Collect(Some(n), false);
    entries := c.entries;
    if Clean(g, n) {
      CandidatesMean(g, n, false);
      FreshIsMap({}, Candidates(g, n, false));
      assert entries == Fresh({}, Candidates(g, n, false));
      assert AsMap(Candidates(g, n, false)) - {} == AsMap(Candidates(g, n, false));
    }
  }

  method EffectiveMappingValue(entries: seq<Entry>, field: string) returns (value: Option<Id>)
    ensures value == if field in AsMap(entries) then Some(AsMap(entries)[field]) else None
  {
    var i := 0;
    while i < |entries|
      invariant 0 <= i <= |entries|
      invariant (field in AsMap(entries) <==> field in AsMap(entries[i..]))
      invariant field in AsMap(entries) ==> AsMap(entries)[field] == AsMap(entries[i..])[field]
    {
      if entries[i].key == field {
        return Some(entries[i].value);
      }
      assert entries[i..][1..] == entries[i + 1..];
      i := i + 1;
    }
    return None;
  }

  /** What an alias chain finally stands for. */
  ghost function Resolved(g: Graph, n: Id): Option<Id>
    requires Walkable(g, n)
    decreases |Below(g, n)|
  {
    if !g[n].kind.AliasNode? then Some(n)
    else if g[n].target.None? then None
    else (Descend(g, n, g[n].target.value); Resolved(g, g[n].target.value))
  }

  ghost predicate Null(g: Graph, n: Id)
    requires Walkable(g, n)
  {
    var r := Resolved(g, n);
    r.Some? && r.value in g && g[r.value].shortTag == "!!null"
  }

  /** The alias loop has no guard of its own: it ends because the walk found no cycle. */
  method IsNullNode(g: Graph, start: Id) returns (isNull: bool)
    requires Walkable(g, start)
    ensures isNull <==> Null(g, start)
  {
    var node := Some(start);
    while node.Some? && g[node.value].kind.AliasNode?
      invariant node.Some? ==> Walkable(g, node.value) && Resolved(g, node.value) == Resolved(g, start)
      invariant node.None? ==> Resolved(g, start).None?
      decreases if node.Some? then 1 + |Below(g, node.value)| else 0
    {
      if g[node.value].target.Some? {
        Descend(g, node.value, g[node.value].target.value);
      }
      node := g[node.value].target;
    }
    return node.Some? && g[node.value].shortTag == "!!null";
  }

  // ----- the document -----

  /** Some provider of the document gives the field an explicit null. */
  ghost predicate NullField(g: Graph, document: Id, field: string)
    requires Walkable(g, document) && g[document].kind.DocumentNode?
  {
    g[document].content != [] &&
    (Descend(g, document, g[document].content[0]);
     var root := Meaning(g, g[document].content[0], false);
     "providers" in root && NullIn(g, Meaning(g, root["providers"], false), field))
  }

  ghost predicate NullIn(g: Graph, providers: map<string, Id>, field: string)
    requires forall id :: id in providers ==> Walkable(g, providers[id])
  {
    exists id :: id in providers && NullOf(g, providers[id], field)
  }

  ghost predicate NullOf(g: Graph, provider: Id, field: string)
    requires Walkable(g, provider)
  {
    var fields := Meaning(g, provider, false);
    field in fields && Null(g, fields[field])
  }

  /** One provider's fields, tokenEnv first. */
  method NullProviderField(g: Graph, provider: Id) returns (cyclic: bool, field: Option<string>)
    requires Walkable(g, provider)
    ensures !cyclic
    ensures field.None? ==> !NullOf(g, provider, "tokenEnv") && !NullOf(g, provider, "caFile")
    ensures field.Some? ==> field.value in {"tokenEnv", "caFile"} && NullOf(g, provider, field.value)
  {
    var entries;
    cyclic, entries := ResolveEffectiveMapping(g, provider);
    var names := ["tokenEnv", "caFile"];
    var i := 0;
    while i < |names|
      invariant 0 <= i <= |names|
      invariant forall j :: 0 <= j < i ==> !NullOf(g, provider, names[j])
    {
      var value := EffectiveMappingValue(entries, names[i]);
      if value.Some? {
        var isNull := IsNullNode(g, value.value);
        if isNull {
          return false, Some(names[i]);
        }
      }
      i := i + 1;
    }
    assert !NullOf(g, provider, names[0]) && !NullOf(g, provider, names[1]);
    return false, None;
  }

  datatype Verdict = Accepted | Rejected(fault: Fault) | NotAString(field: string)

  method RejectNullProviderFields(g: Graph, document: Id) returns (r: Verdict)
    requires Walkable(g, document) && g[document].kind.DocumentNode?
    ensures r.Accepted? ==> !NullField(g, document, "tokenEnv") && !NullField(g, document, "caFile")
    ensures !r.Accepted? ==> r.NotAString? && r.field in {"tokenEnv", "caFile"} && NullField(g, document, r.field)
  {
    hide AsMap, Meaning, Clean, Path, NullOf, Below;
    if g[document].content == [] {
      return Accepted;
    }
    Descend(g, document, g[document].content[0]);
    // The walk has passed, so none of these can report a cycle.
    var cyclic, root := ResolveEffectiveMapping(g, g[document].content[0]);
    var providers := EffectiveMappingValue(root, "providers");
    if providers.None? {
      return Accepted;
    }
    var entries;
    cyclic, entries := ResolveEffectiveMapping(g, providers.value);
    ghost var meaning := Meaning(g, providers.value, false);
    var i := 0;
    while i < |entries|
      invariant 0 <= i <= |entries|
      invariant forall j :: 0 <= j < i ==> entries[j].key in meaning && meaning[entries[j].key] == entries[j].value
      invariant forall j :: 0 <= j < i ==>
          !NullOf(g, entries[j].value, "tokenEnv") && !NullOf(g, entries[j].value, "caFile")
    {
      AsMapAt(entries, i);
      var field;
      cyclic, field := NullProviderField(g, entries[i].value);
      if field.Some? {
        assert NullIn(g, meaning, field.value);
        return NotAString(field.value);
      }
      i := i + 1;
    }
    AsMapOnly(entries);
    return Accepted;
  }

  lemma {:induction false} AsMapAt(entries: seq<Entry>, i: nat)
    requires i < |entries| && UniqueKeys(entries)
    ensures entries[i].key in AsMap(entries) && AsMap(entries)[entries[i].key] == entries[i].value
  {
    if i > 0 {
      assert entries[1..][i - 1] == entries[i];
      AsMapAt(entries[1..], i - 1);
    }
  }

  lemma {:induction false} AsMapOnly(entries: seq<Entry>)
    ensures forall k :: k in AsMap(entries) ==>
        exists i :: 0 <= i < |entries| && entries[i] == Entry(k, AsMap(entries)[k])
  {
    if entries != [] {
      var rest := entries[1..];
      AsMapOnly(rest);
      forall k | k in AsMap(entries)
        ensures exists i :: 0 <= i < |entries| && entries[i] == Entry(k, AsMap(entries)[k])
      {
        if k == entries[0].key {
          assert entries[0] == Entry(k, AsMap(entries)[k]);
        } else {
          assert k in AsMap(rest);
          var i :| 0 <= i < |rest| && rest[i] == Entry(k, AsMap(rest)[k]);
          assert entries[i + 1] == rest[i];
        }
      }
    }
  }

  /** The checks a parsed document must pass: accepted exactly when it reaches no cycle and no duplicate key and no
      provider has a null field; and each rejection names a fault the document has. */
  method RejectDuplicateKeys(g: Graph, document: Id) returns (r: Verdict)
    requires Closed(g) && document in g && g[document].kind.DocumentNode?
    ensures r.Accepted? <==>
        Clean(g, document) && !NullField(g, document, "tokenEnv") && !NullField(g, document, "caFile")
    ensures r.Rejected? ==> Explains(g, document, {}, Some(r.fault))
    ensures r.NotAString? ==> Clean(g, document) && NullField(g, document, r.field)
  {
    var walk := new Walk(g);
    assert Closed(walk.g);
    var fault := walk.DuplicateKeyPath(Some(document));
    if fault.Some? {
      return Rejected(fault.value);
    }
    r := RejectNullProviderFields(g, document);
  }
}
