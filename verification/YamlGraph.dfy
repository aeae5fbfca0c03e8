// The configuration's YAML node graph: the duplicate-key walk, the merge-key view of a mapping and the null-field test
// (internal/config/decode.go).
module YamlGraph {
  import opened Text

  type Id = nat

  datatype Kind = DocumentNode | SequenceNode | MappingNode | ScalarNode | AliasNode

  /** One node; `shortTag` is the YAML library's own resolution of the tag. */
  datatype Node = Node(kind: Kind, tag: string, shortTag: string, value: string, content: seq<Id>, target: Option<Id>)

  /** Nodes are shared by pointer, so a document is a graph and aliases can close a cycle. */
  type Graph = map<Id, Node>

  /** What the YAML library builds: no dangling pointer, and mappings list keys and values alternately. */
  ghost predicate Closed(g: Graph) {
    && (forall n, i :: n in g && 0 <= i < |g[n].content| ==> g[n].content[i] in g)
    && (forall n :: n in g && g[n].target.Some? ==> g[n].target.value in g)
    && (forall n :: n in g && g[n].kind.MappingNode? ==> |g[n].content| % 2 == 0)
  }

  function Pairs(v: Node): nat {
    |v.content| / 2
  }

  function KeyId(v: Node, i: nat): Id
    requires i < Pairs(v)
  {
    v.content[2 * i]
  }

  function Value(v: Node, i: nat): Id
    requires i < Pairs(v)
  {
    v.content[2 * i + 1]
  }

  function Key(g: Graph, v: Node, i: nat): string
    requires i < Pairs(v)
  {
    if KeyId(v, i) in g then g[KeyId(v, i)].value else ""
  }

  function IsMerge(g: Graph, v: Node, i: nat): bool
    requires i < Pairs(v)
  {
    KeyId(v, i) in g && MergeKey(g[KeyId(v, i)])
  }

  predicate MergeKey(k: Node) {
    k.kind.ScalarNode? && k.value == "<<" && (k.tag == "" || k.tag == "!" || k.shortTag == "!!merge")
  }

  // ----- reachability -----

  ghost predicate HasValue(v: Node, c: Id) {
    exists i: nat :: i < Pairs(v) && Value(v, i) == c
  }

  /** The pointers a walk follows: the values of a mapping; the contents and the alias target of anything else. */
  ghost predicate Edge(g: Graph, n: Id, c: Id) {
    n in g && c in g &&
    if g[n].kind.MappingNode? then HasValue(g[n], c) else c in g[n].content || g[n].target == Some(c)
  }

  ghost predicate Path(g: Graph, p: seq<Id>) {
    p != [] && p[0] in g && (|p| == 1 || (Edge(g, p[0], p[1]) && Path(g, p[1..])))
  }

  ghost predicate PathFrom(g: Graph, n: Id, p: seq<Id>) {
    Path(g, p) && p[0] == n
  }

  ghost predicate Distinct(p: seq<Id>) {
    forall i, j :: 0 <= i < j < |p| ==> p[i] != p[j]
  }

  ghost predicate DuplicateAt(g: Graph, n: Id, key: string) {
    n in g && g[n].kind.MappingNode? &&
    exists i: nat, j: nat :: i < j < Pairs(g[n]) && Key(g, g[n], i) == key && Key(g, g[n], j) == key
  }

  ghost predicate DuplicateFree(g: Graph, n: Id) {
    forall key :: !DuplicateAt(g, n, key)
  }

  ghost predicate Avoids(p: seq<Id>, active: set<Id>) {
    forall i :: 0 <= i < |p| ==> p[i] !in active
  }

  /** Some path from n meets itself or a node of `active`. */
  ghost predicate Cyclic(g: Graph, n: Id, active: set<Id>) {
    exists p :: PathFrom(g, n, p) && !(Distinct(p) && Avoids(p, active))
  }

  /** Some path from n ends at a mapping that holds the key twice. */
  ghost predicate Duplicated(g: Graph, n: Id, key: string) {
    exists p :: PathFrom(g, n, p) && DuplicateAt(g, p[|p| - 1], key)
  }

  /** No cycle and no duplicate key is reachable. */
  ghost predicate Clean(g: Graph, n: Id) {
    !Cyclic(g, n, {}) && forall key :: !Duplicated(g, n, key)
  }

  ghost predicate CleanBeyond(g: Graph, n: Id, active: set<Id>) {
    !Cyclic(g, n, active) && forall key :: !Duplicated(g, n, key)
  }

  lemma Prepend(g: Graph, n: Id, c: Id, q: seq<Id>)
    requires Edge(g, n, c) && PathFrom(g, c, q)
    ensures PathFrom(g, n, [n] + q)
    ensures ([n] + q)[|q|] == q[|q| - 1]
  {
    assert ([n] + q)[1..] == q;
  }

  lemma CyclicUp(g: Graph, n: Id, c: Id, active: set<Id>)
    requires Edge(g, n, c) && Cyclic(g, c, active + {n})
    ensures Cyclic(g, n, active)
  {
    var q :| PathFrom(g, c, q) && !(Distinct(q) && Avoids(q, active + {n}));
    Prepend(g, n, c, q);
    var p := [n] + q;
    if !Distinct(q) {
      var i, j :| 0 <= i < j < |q| && q[i] == q[j];
      assert p[i + 1] == p[j + 1];
    } else {
      var i :| 0 <= i < |q| && q[i] in active + {n};
      assert p[i + 1] == q[i] && p[0] == n;
    }
  }

  lemma DuplicatedUp(g: Graph, n: Id, c: Id, key: string)
    requires Edge(g, n, c) && Duplicated(g, c, key)
    ensures Duplicated(g, n, key)
  {
    var q :| PathFrom(g, c, q) && DuplicateAt(g, q[|q| - 1], key);
    Prepend(g, n, c, q);
  }

  /** What is clean stays clean one pointer further on, and never leads back. */
  lemma CleanDown(g: Graph, n: Id, c: Id, active: set<Id>)
    requires CleanBeyond(g, n, active) && Edge(g, n, c)
    ensures CleanBeyond(g, c, active + {n})
  {
    if Cyclic(g, c, active + {n}) {
      CyclicUp(g, n, c, active);
    }
    forall key
      ensures !Duplicated(g, c, key)
    {
      if Duplicated(g, c, key) {
        DuplicatedUp(g, n, c, key);
      }
    }
  }

  lemma NodeOnPath(g: Graph, n: Id)
    requires n in g
    ensures PathFrom(g, n, [n])
  {
  }

  /** A node is clean when it is new on the path, repeats no key, and everything it points to is clean beyond it. */
  lemma CleanUp(g: Graph, n: Id, active: set<Id>)
    requires n in g && n !in active
    requires DuplicateFree(g, n)
    requires forall c :: Edge(g, n, c) ==> CleanBeyond(g, c, active + {n})
    ensures CleanBeyond(g, n, active)
  {
    forall p | PathFrom(g, n, p)
      ensures Distinct(p) && Avoids(p, active) && DuplicateFree(g, p[|p| - 1])
    {
      if |p| > 1 {
        var q := p[1..];
        assert Edge(g, n, p[1]) && PathFrom(g, p[1], q);
        assert Distinct(q) && Avoids(q, active + {n});
        forall i, j | 0 <= i < j < |p|
          ensures p[i] != p[j]
        {
          assert p[j] == q[j - 1];
          if i > 0 {
            assert p[i] == q[i - 1];
          }
        }
        forall i | 0 <= i < |p|
          ensures p[i] !in active
        {
          if i > 0 {
            assert p[i] == q[i - 1];
          }
        }
        var end := p[|p| - 1];
        assert end == q[|q| - 1];
        forall key
          ensures !DuplicateAt(g, end, key)
        {
          assert !Duplicated(g, p[1], key);
        }
      }
    }
  }

  lemma DuplicatedHere(g: Graph, n: Id, key: string)
    requires DuplicateAt(g, n, key)
    ensures Duplicated(g, n, key)
  {
    NodeOnPath(g, n);
  }

  // ----- the duplicate-key walk -----

  datatype Fault = CyclicAlias | DuplicateKey(key: string)

  ghost predicate Explains(g: Graph, n: Id, active: set<Id>, fault: Option<Fault>) {
    match fault
    case None => CleanBeyond(g, n, active)
    case Some(CyclicAlias) => Cyclic(g, n, active)
    case Some(DuplicateKey(key)) => Duplicated(g, n, key)
  }

  lemma FaultUp(g: Graph, n: Id, c: Id, active: set<Id>, fault: Option<Fault>)
    requires Edge(g, n, c) && Explains(g, c, active + {n}, fault) && fault.Some?
    ensures Explains(g, n, active, fault)
  {
    match fault.value
    case CyclicAlias => CyclicUp(g, n, c, active);
    case DuplicateKey(key) => DuplicatedUp(g, n, c, key);
  }

  lemma SmallerRest(g: Graph, n: Id, active: set<Id>)
    requires n in g && n !in active
    ensures |g.Keys - (active + {n})| < |g.Keys - active|
  {
    assert g.Keys - (active + {n}) == (g.Keys - active) - {n};
  }

  /** The keys of the first pairs, and no two alike. */
  ghost predicate KeysSeen(g: Graph, v: Node, i: nat, seen: set<string>)
    requires i <= Pairs(v)
  {
    && (forall j: nat :: j < i ==> Key(g, v, j) in seen)
    && (forall k :: k in seen ==> exists j: nat :: j < i && Key(g, v, j) == k)
    && (forall j: nat, k: nat :: j < k < i ==> Key(g, v, j) != Key(g, v, k))
  }

  lemma NoneSeen(g: Graph, v: Node)
    ensures KeysSeen(g, v, 0, {})
  {
  }

  lemma SeenOnce(g: Graph, v: Node, i: nat, seen: set<string>)
    requires i < Pairs(v) && KeysSeen(g, v, i, seen) && Key(g, v, i) !in seen
    ensures KeysSeen(g, v, i + 1, seen + {Key(g, v, i)})
  {
  }

  lemma SeenTwice(g: Graph, n: Id, i: nat, seen: set<string>)
    requires n in g && g[n].kind.MappingNode? && i < Pairs(g[n]) && KeysSeen(g, g[n], i, seen) &&
        Key(g, g[n], i) in seen
    ensures Duplicated(g, n, Key(g, g[n], i))
  {
    DuplicatedHere(g, n, Key(g, g[n], i));
  }

  lemma AllSeen(g: Graph, n: Id, seen: set<string>)
    requires n in g && KeysSeen(g, g[n], Pairs(g[n]), seen)
    ensures DuplicateFree(g, n)
  {
  }

  lemma MappingClosed(g: Graph, n: Id)
    requires Closed(g) && n in g
    ensures forall i: nat :: i < Pairs(g[n]) ==> Value(g[n], i) in g
  {
  }

  lemma ValueEdge(g: Graph, n: Id, i: nat)
    requires n in g && g[n].kind.MappingNode? && i < Pairs(g[n]) && Value(g[n], i) in g
    ensures Edge(g, n, Value(g[n], i))
  {
    assert HasValue(g[n], Value(g[n], i));
  }

  lemma ValuesClean(g: Graph, n: Id, active: set<Id>)
    requires n in g && g[n].kind.MappingNode?
    requires forall j: nat :: j < Pairs(g[n]) ==> CleanBeyond(g, Value(g[n], j), active)
    ensures forall c :: Edge(g, n, c) ==> CleanBeyond(g, c, active)
  {
    hide CleanBeyond;
  }

  class Walk {
    const g: Graph
    var active: set<Id>

    constructor (g: Graph)
      ensures this.g == g && active == {}
    {
      this.g := g;
      active := {};
    }

    method DuplicateKeyPath(node: Option<Id>) returns (fault: Option<Fault>)
      requires Closed(g) && (node.Some? ==> node.value in g)
      modifies this
      ensures active == old(active)
      ensures node.None? ==> fault.None?
      ensures node.Some? ==> Explains(g, node.value, active, fault)
      decreases |g.Keys - active|, 0
    {
      if node.None? {
        return None;
      }
      var n := node.value;
      if n in active {
        NodeOnPath(g, n);
        assert PathFrom(g, n, [n]) && !Avoids([n], active);
        return Some(CyclicAlias);
      }
      SmallerRest(g, n, active);
      ghost var before := active;
      active := active + {n};
      fault := Visit(n, before);
      active := active - {n};
    }

    method Visit(n: Id, ghost before: set<Id>) returns (fault: Option<Fault>)
      requires Closed(g) && n in g && n !in before && active == before + {n}
      modifies this
      ensures active == old(active)
      ensures Explains(g, n, before, fault)
      decreases |g.Keys - active|, 2
    {
      if g[n].kind.MappingNode? {
        fault := VisitMapping(n, before);
        return;
      }
      var i := 0;
      while i < |g[n].content|
        invariant 0 <= i <= |g[n].content|
        invariant active == before + {n}
        invariant forall j :: 0 <= j < i ==> CleanBeyond(g, g[n].content[j], active)
      {
        assert Edge(g, n, g[n].content[i]);
        fault := DuplicateKeyPath(Some(g[n].content[i]));
        if fault.Some? {
          FaultUp(g, n, g[n].content[i], before, fault);
          return;
        }
        i := i + 1;
      }
      fault := DuplicateKeyPath(g[n].target);
      if fault.Some? {
        FaultUp(g, n, g[n].target.value, before, fault);
      } else {
        CleanUp(g, n, before);
      }
    }

    method VisitMapping(n: Id, ghost before: set<Id>) returns (fault: Option<Fault>)
      requires Closed(g) && n in g && n !in before && active == before + {n} && g[n].kind.MappingNode?
      modifies this
      ensures active == old(active)
      ensures Explains(g, n, before, fault)
      decreases |g.Keys - active|, 1
    {
      hide Cyclic, Duplicated, CleanBeyond, Path, MergeKey, KeysSeen, DuplicateFree, DuplicateAt, Edge, Closed;
      MappingClosed(g, n);
      var v := g[n];
      var seen: set<string> := {};
      NoneSeen(g, v);
      var i := 0;
      while i < Pairs(v)
        invariant 0 <= i <= Pairs(v)
        invariant active == before + {n}
        invariant KeysSeen(g, v, i, seen)
        invariant forall j: nat :: j < i ==> CleanBeyond(g, Value(v, j), active)
      {
        if Key(g, v, i) in seen {
          SeenTwice(g, n, i, seen);
          return Some(DuplicateKey(Key(g, v, i)));
        }
        SeenOnce(g, v, i, seen);
        seen := seen + {Key(g, v, i)};
        ValueEdge(g, n, i);
        fault := DuplicateKeyPath(Some(Value(v, i)));
        if fault.Some? {
          FaultUp(g, n, Value(v, i), before, fault);
          return;
        }
        i := i + 1;
      }
      AllSeen(g, n, seen);
      ValuesClean(g, n, active);
      CleanUp(g, n, before);
      return None;
    }
  }
}
