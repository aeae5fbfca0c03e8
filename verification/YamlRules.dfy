/** What merge keys do to a mapping, spelled out on its content: own keys, the plain `<<` key, and null provider fields
    that are only inherited. */
module YamlRules {
  import opened Text
  import opened YamlGraph
  import opened YamlMerge

  /** The i-th key of a mapping is this text, and its value is this node. */
  predicate PairAt(g: Graph, n: Id, i: nat, key: string, value: Id) {
    && n in g && g[n].kind.MappingNode? && 2 * i + 1 < |g[n].content|
    && g[n].content[2 * i] in g && g[g[n].content[2 * i]].value == key && g[n].content[2 * i + 1] == value
  }

  /** A plain `<<`: an untagged scalar, or one that the library resolves to a merge key. */
  predicate PlainMerge(k: Node) {
    k.kind.ScalarNode? && k.value == "<<" && (k.tag in {"", "!"} || k.shortTag == "!!merge")
  }

  predicate MergesAt(g: Graph, n: Id, i: nat, base: Id) {
    PairAt(g, n, i, "<<", base) && PlainMerge(g[g[n].content[2 * i]])
  }

  /** An own key: any key that is not a plain `<<`. */
  predicate OwnAt(g: Graph, n: Id, i: nat, key: string, value: Id) {
    PairAt(g, n, i, key, value) && !PlainMerge(g[g[n].content[2 * i]])
  }

  /** In a walked mapping every key stands once. */
  lemma OneOfEach(g: Graph, n: Id, i: nat, j: nat)
    requires Walkable(g, n) && g[n].kind.MappingNode? && i < Pairs(g[n]) && j < Pairs(g[n])
    requires Key(g, g[n], i) == Key(g, g[n], j)
    ensures i == j
  {
    if i < j {
      assert DuplicateAt(g, n, Key(g, g[n], i));
      DuplicatedHere(g, n, Key(g, g[n], i));
    }
    if j < i {
      assert DuplicateAt(g, n, Key(g, g[n], i));
      DuplicatedHere(g, n, Key(g, g[n], i));
    }
  }

  lemma PointsTo(g: Graph, n: Id, i: nat, key: string, value: Id)
    requires Walkable(g, n) && PairAt(g, n, i, key, value)
    ensures i < Pairs(g[n]) && Key(g, g[n], i) == key && Value(g[n], i) == value
    ensures Walkable(g, value)
    ensures IsMerge(g, g[n], i) <==> PlainMerge(g[g[n].content[2 * i]])
  {
    assert HasValue(g[n], Value(g[n], i));
    Descend(g, n, value);
  }

  lemma {:induction false} OwnFrom(g: Graph, n: Id, from: nat, i: nat, key: string, value: Id)
    requires Walkable(g, n) && OwnAt(g, n, i, key, value) && from <= i
    ensures i < Pairs(g[n])
    ensures key in OwnMeaning(g, n, from) && OwnMeaning(g, n, from)[key] == value
    decreases i - from
  {
    PointsTo(g, n, i, key, value);
    if from < i {
      OwnFrom(g, n, from + 1, i, key, value);
      if Key(g, g[n], from) == key {
        OneOfEach(g, n, from, i);
      }
    }
  }

  /** A key the mapping states itself has its own value, whatever is merged. */
  lemma OwnKeyWins(g: Graph, n: Id, i: nat, key: string, value: Id)
    requires Walkable(g, n) && OwnAt(g, n, i, key, value)
    ensures key in Meaning(g, n, false) && Meaning(g, n, false)[key] == value
  {
    OwnFrom(g, n, 0, i, key, value);
  }

  lemma {:induction false} NotOwned(g: Graph, n: Id, from: nat, key: string)
    requires Walkable(g, n) && g[n].kind.MappingNode? && from <= Pairs(g[n])
    requires forall i: nat, value :: !OwnAt(g, n, i, key, value)
    ensures key !in OwnMeaning(g, n, from)
    decreases Pairs(g[n]) - from
  {
    if from < Pairs(g[n]) {
      NotOwned(g, n, from + 1, key);
      assert !OwnAt(g, n, from, key, Value(g[n], from));
    }
  }

  lemma {:induction false} MergesFrom(g: Graph, n: Id, from: nat, i: nat, base: Id)
    requires Walkable(g, n) && MergesAt(g, n, i, base) && from <= Pairs(g[n])
    ensures i < Pairs(g[n]) && Walkable(g, base)
    ensures MergesMeaning(g, n, from) == if from <= i then Meaning(g, base, true) else map[]
    decreases Pairs(g[n]) - from
  {
    PointsTo(g, n, i, "<<", base);
    if from < Pairs(g[n]) {
      MergesFrom(g, n, from + 1, i, base);
      if from != i && IsMerge(g, g[n], from) {
        OneOfEach(g, n, from, i);
      }
    }
  }

  /** A plain `<<` brings in every entry of what it points to that the mapping does not state itself. */
  lemma MergeBringsIn(g: Graph, n: Id, i: nat, base: Id, key: string)
    requires Walkable(g, n) && MergesAt(g, n, i, base)
    requires forall j: nat, value :: !OwnAt(g, n, j, key, value)
    ensures Walkable(g, base)
    ensures key in Meaning(g, n, false) <==> key in Meaning(g, base, true)
    ensures key in Meaning(g, n, false) ==> Meaning(g, n, false)[key] == Meaning(g, base, true)[key]
  {
    MergesFrom(g, n, 0, i, base);
    NotOwned(g, n, 0, key);
  }

  /** Merging a mapping means its own meaning, and merging an alias means what it stands for. */
  lemma MergedMapping(g: Graph, base: Id)
    requires Walkable(g, base)
    ensures g[base].kind.MappingNode? ==> Meaning(g, base, true) == Meaning(g, base, false)
    ensures g[base].kind.AliasNode? && g[base].target.Some? ==>
              Walkable(g, g[base].target.value) && Meaning(g, base, true) == Meaning(g, g[base].target.value, true)
  {
    if g[base].kind.AliasNode? && g[base].target.Some? {
      Descend(g, base, g[base].target.value);
    }
  }

  /** A provider that gets its token variable from a merged mapping, as an explicit null, is a provider with a null
      field. */
  lemma InheritedNullCounts(g: Graph, provider: Id, i: nat, base: Id, j: nat, value: Id, field: string)
    requires Walkable(g, provider) && MergesAt(g, provider, i, base)
    requires OwnAt(g, base, j, field, value)
    requires forall k: nat, other :: !OwnAt(g, provider, k, field, other)
    requires value in g && g[value].kind.ScalarNode? && g[value].shortTag == "!!null"
    ensures NullOf(g, provider, field)
  {
    PointsTo(g, provider, i, "<<", base);
    MergeBringsIn(g, provider, i, base, field);
    MergedMapping(g, base);
    OwnKeyWins(g, base, j, field, value);
  }

  /** A document with such a provider is refused: its field counts as null wherever the provider is listed. */
  lemma InheritedNullRefused(g: Graph, document: Id, id: string, i: nat, base: Id, j: nat, value: Id, field: string)
    requires Walkable(g, document) && g[document].kind.DocumentNode? && g[document].content != []
    requires Walkable(g, g[document].content[0]) && "providers" in Meaning(g, g[document].content[0], false)
    requires var providers := Meaning(g, Meaning(g, g[document].content[0], false)["providers"], false);
             && id in providers && MergesAt(g, providers[id], i, base) && OwnAt(g, base, j, field, value)
             && forall k: nat, other :: !OwnAt(g, providers[id], k, field, other)
    requires value in g && g[value].kind.ScalarNode? && g[value].shortTag == "!!null"
    ensures NullField(g, document, field)
  {
    var providers := Meaning(g, Meaning(g, g[document].content[0], false)["providers"], false);
    InheritedNullCounts(g, providers[id], i, base, j, value, field);
    assert NullIn(g, providers, field);
  }

  lemma {:induction false} FirstOfItems(g: Graph, base: Id, from: nat, i: nat, key: string)
    requires Walkable(g, base) && g[base].kind.SequenceNode? && from <= i < |g[base].content|
    requires forall j :: 0 <= j < |g[base].content| ==> Walkable(g, g[base].content[j])
    requires key in Meaning(g, g[base].content[i], false)
    requires forall j :: from <= j < i ==> key !in Meaning(g, g[base].content[j], false)
    ensures key in ItemsMeaning(g, base, from)
    ensures ItemsMeaning(g, base, from)[key] == Meaning(g, g[base].content[i], false)[key]
    decreases i - from
  {
    ItemsStep(g, base, from);
    hide Meaning, ItemsMeaning, Clean, Closed;
    if from < i {
      FirstOfItems(g, base, from + 1, i, key);
    }
  }

  lemma ItemsStep(g: Graph, base: Id, from: nat)
    requires Walkable(g, base) && !g[base].kind.MappingNode? && from < |g[base].content|
    requires Walkable(g, g[base].content[from])
    ensures ItemsMeaning(g, base, from) == ItemsMeaning(g, base, from + 1) + Meaning(g, g[base].content[from], false)
  {
    hide Meaning, Clean, Closed, Below;
  }

  /** Merging a sequence of mappings: a key has the value of the first that has it. */
  lemma MergedSequence(g: Graph, base: Id, i: nat, key: string)
    requires Walkable(g, base) && g[base].kind.SequenceNode? && i < |g[base].content|
    requires forall j :: 0 <= j < |g[base].content| ==> Walkable(g, g[base].content[j])
    requires key in Meaning(g, g[base].content[i], false)
    requires forall j :: 0 <= j < i ==> key !in Meaning(g, g[base].content[j], false)
    ensures key in Meaning(g, base, true) && Meaning(g, base, true)[key] == Meaning(g, g[base].content[i], false)[key]
  {
    hide Clean, Below, ItemsMeaning;
    FirstOfItems(g, base, 0, i, key);
  }

  /** Anything else is no mapping: a scalar merges nothing, and neither does a sequence inside a sequence. */
  lemma MergesNothing(g: Graph, n: Id, merging: bool)
    requires Walkable(g, n)
    requires g[n].kind.ScalarNode? || g[n].kind.DocumentNode? || (g[n].kind.SequenceNode? && !merging)
    ensures Meaning(g, n, merging) == map[]
  {
  }
}
