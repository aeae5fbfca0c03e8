/** Gitea issues as the provider returns them and as the adapter normalizes them. */
module IssueModel {
  import opened Text

  /** A user or a label: an id and a name. */
  datatype Entry = Entry(id: int, name: Bytes)

  datatype RepositoryName = RepositoryName(owner: Bytes, name: Bytes)

  datatype SdkRepository = SdkRepository(owner: Bytes, name: Bytes, fullName: Bytes)

  /** A point in time, and whether a protobuf timestamp can hold it. */
  datatype Time = Time(at: int, representable: bool)

  /** An issue as the SDK decodes it; what is missing is a nil pointer. */
  datatype SdkIssue = SdkIssue(
    isPull: bool, index: int, poster: Option<Entry>, comments: int, repository: Option<SdkRepository>, state: Bytes,
    url: Bytes, title: Bytes, body: Bytes, created: Time, updated: Time, deadline: Option<Time>,
    milestone: Option<Bytes>,
    assignees: seq<Option<Entry>>, labels: seq<Option<Entry>>)

  /** What an edit never looks at. */
  datatype Details = Details(
    authorID: int, author: Bytes, commentCount: int, isOpen: bool, url: Bytes,
    created: Time, updated: Time, deadline: Option<Time>, milestone: Option<Bytes>)

  datatype Issue = Issue(
    index: int, title: Bytes, body: Bytes, assignees: seq<Bytes>, labels: seq<Bytes>, labelIDs: map<Bytes, int>,
    details: Details)

  predicate ProviderString(s: Bytes) {
    ValidUtf8(s) && '\0' !in s
  }

  function ToSet<T>(s: seq<T>): set<T> {
    set x | x in s
  }

  function Lookup(ids: map<Bytes, int>, name: Bytes): int {
    if name in ids then ids[name] else 0
  }

  // ----- lists of named entries -----

  predicate EntryOk(e: Entry) {
    e.id > 0 && e.name != "" && ProviderString(e.name)
  }

  /** Every element is present and sound, and brings a new id and a new name. */
  predicate EntriesOk(es: seq<Option<Entry>>) {
    es == [] ||
    var last := |es| - 1;
    && EntriesOk(es[..last])
    && es[last].Some? && EntryOk(es[last].value)
    && es[last].value.id !in IDs(es[..last]).Values && es[last].value.name !in IDs(es[..last])
  }

  function IDs(es: seq<Option<Entry>>): map<Bytes, int> {
    if es == [] then map[]
    else
      var last := |es| - 1;
      if es[last].None? then IDs(es[..last]) else IDs(es[..last])[es[last].value.name := es[last].value.id]
  }

  function Names(es: seq<Option<Entry>>): seq<Bytes> {
    if es == [] then []
    else
      var last := |es| - 1;
      if es[last].None? then Names(es[..last]) else Names(es[..last]) + [es[last].value.name]
  }

  /** Distinct names, with distinct positive ids. */
  predicate Catalogued(names: seq<Bytes>, ids: map<Bytes, int>) {
    && (forall i, j :: 0 <= i < j < |names| ==> names[i] != names[j])
    && ids.Keys == ToSet(names)
    && (forall name :: name in ids ==> ids[name] > 0)
    && (forall a, b :: a in ids && b in ids && ids[a] == ids[b] ==> a == b)
  }

  lemma {:induction false} EntriesCatalogued(es: seq<Option<Entry>>)
    requires EntriesOk(es)
    ensures Catalogued(Names(es), IDs(es))
  {
    hide ProviderString;
    if es != [] {
      var last := |es| - 1;
      EntriesCatalogued(es[..last]);
      CataloguedStep(Names(es[..last]), IDs(es[..last]), es[last].value);
    }
  }

  lemma CataloguedStep(names: seq<Bytes>, ids: map<Bytes, int>, e: Entry)
    requires Catalogued(names, ids) && e.id > 0 && e.name !in ids && e.id !in ids.Values
    ensures Catalogued(names + [e.name], ids[e.name := e.id])
  {
    var next := ids[e.name := e.id];
    assert ToSet(names + [e.name]) == ToSet(names) + {e.name};
    forall a, b | a in next && b in next && next[a] == next[b]
      ensures a == b
    {
      assert a in ids ==> ids[a] in ids.Values;
      assert b in ids ==> ids[b] in ids.Values;
    }
  }

  lemma {:induction false} EntriesPrefix(es: seq<Option<Entry>>, n: nat)
    requires n <= |es| && EntriesOk(es)
    ensures EntriesOk(es[..n])
  {
    hide EntryOk;
    if n < |es| {
      var last := |es| - 1;
      EntriesPrefix(es[..last], n);
      assert es[..last][..n] == es[..n];
    } else {
      assert es[..n] == es;
    }
  }

  predicate Labelled(labels: seq<Option<Entry>>, id: int) {
    exists i :: 0 <= i < |labels| && labels[i].Some? && labels[i].value.id == id
  }

  /** The names and ids of checked entries are those of the entries themselves. */
  lemma {:induction false} NamesAndIDs(es: seq<Option<Entry>>)
    requires EntriesOk(es)
    ensures |Names(es)| == |es|
    ensures forall i :: 0 <= i < |es| ==> es[i].Some? && Names(es)[i] == es[i].value.name
    ensures forall i :: 0 <= i < |es| ==> Names(es)[i] in IDs(es) && IDs(es)[Names(es)[i]] == es[i].value.id
    ensures forall id :: id in IDs(es).Values <==> Labelled(es, id)
  {
    hide EntryOk;
    if es != [] {
      var last := |es| - 1;
      NamesAndIDs(es[..last]);
      ValuesStep(IDs(es[..last]), es[last].value);
      forall id
        ensures Labelled(es, id) <==> Labelled(es[..last], id) || id == es[last].value.id
      {
        if i :| 0 <= i < |es| && es[i].value.id == id {
          assert i < last ==> es[..last][i] == es[i];
        }
        if i :| 0 <= i < last && es[..last][i].value.id == id {
          assert es[i] == es[..last][i];
        }
      }
    }
  }

  /** A provider's listing: it never repeats an id or a name. */
  type Listing = es: seq<Option<Entry>> | EntriesOk(es) witness []

  /** The name an id stands for. */
  function Directory(es: seq<Option<Entry>>): map<int, Bytes> {
    if es == [] then map[]
    else
      var last := |es| - 1;
      if es[last].None? then Directory(es[..last]) else Directory(es[..last])[es[last].value.id := es[last].value.name]
  }

  /** Ids and names determine each other. */
  lemma {:induction false} DirectoryInverse(es: seq<Option<Entry>>)
    requires EntriesOk(es)
    ensures forall id :: id in Directory(es) ==> Directory(es)[id] in IDs(es) && IDs(es)[Directory(es)[id]] == id
    ensures forall name :: name in IDs(es) ==> IDs(es)[name] in Directory(es) && Directory(es)[IDs(es)[name]] == name
  {
    hide EntryOk;
    if es != [] {
      var last := |es| - 1;
      var ids := IDs(es[..last]);
      DirectoryInverse(es[..last]);
      assert forall name :: name in ids ==> ids[name] in ids.Values;
    }
  }

  /** The part of a listing that has these names. */
  function Select(es: seq<Option<Entry>>, names: set<Bytes>): seq<Option<Entry>> {
    if es == [] then []
    else
      var last := |es| - 1;
      Select(es[..last], names) + (if es[last].Some? && es[last].value.name in names then [es[last]] else [])
  }

  lemma OneMoreEntry(es: seq<Option<Entry>>, e: Entry)
    ensures EntriesOk(es + [Some(e)]) <==> EntriesOk(es) && EntryOk(e) && e.id !in IDs(es).Values && e.name !in IDs(es)
    ensures IDs(es + [Some(e)]) == IDs(es)[e.name := e.id]
    ensures Names(es + [Some(e)]) == Names(es) + [e.name]
  {
    hide EntryOk;
    assert (es + [Some(e)])[..|es|] == es;
  }

  lemma SubmapValues(a: map<Bytes, int>, b: map<Bytes, int>)
    requires forall name :: name in a ==> name in b && a[name] == b[name]
    ensures a.Values <= b.Values
  {
    forall v | v in a.Values
      ensures v in b.Values
    {
      var name :| name in a && a[name] == v;
      assert b[name] in b.Values;
    }
  }

  /** Selecting from a listing and one more entry of it. */
  lemma SelectStep(es: seq<Option<Entry>>, e: Entry, names: set<Bytes>)
    requires EntriesOk(es + [Some(e)]) && Selected(es, names)
    ensures Selected(es + [Some(e)], names)
  {
    var chosen := Select(es, names);
    assert (es + [Some(e)])[..|es|] == es;
    assert Select(es + [Some(e)], names) == if e.name in names then chosen + [Some(e)] else chosen;
    hide EntryOk, EntriesOk, IDs, Names, Select;
    OneMoreEntry(es, e);
    OneMoreEntry(chosen, e);
    SubmapValues(IDs(chosen), IDs(es));
    SubmapStep(IDs(chosen), IDs(es), e, names);
    assert ToSet(Names(chosen) + [e.name]) == ToSet(Names(chosen)) + {e.name};
  }

  lemma SubmapStep(a: map<Bytes, int>, b: map<Bytes, int>, e: Entry, names: set<Bytes>)
    requires a.Keys == names * b.Keys && (forall name :: name in a ==> a[name] == b[name]) && e.name !in b
    ensures var (next, all) := (if e.name in names then a[e.name := e.id] else a, b[e.name := e.id]);
            next.Keys == names * all.Keys && forall name :: name in next ==> next[name] == all[name]
  {
  }

  predicate Selected(es: seq<Option<Entry>>, names: set<Bytes>) {
    var chosen := Select(es, names);
    && EntriesOk(chosen) && ToSet(Names(chosen)) == names * IDs(es).Keys
    && IDs(chosen).Keys == names * IDs(es).Keys
    && forall name :: name in IDs(chosen) ==> IDs(chosen)[name] == IDs(es)[name]
  }

  /** A selection is a listing too, with the same ids. */
  lemma {:induction false} SelectOk(es: seq<Option<Entry>>, names: set<Bytes>)
    requires EntriesOk(es)
    ensures Selected(es, names)
  {
    if es != [] {
      var last := |es| - 1;
      SelectOk(es[..last], names);
      var e := es[last].value;
      assert es == es[..last] + [Some(e)];
      hide EntriesOk, Selected;
      SelectStep(es[..last], e, names);
    }
  }

  // ----- issues -----

  predicate BelongsTo(r: SdkRepository, repository: RepositoryName) {
    r.owner == repository.owner && r.name == repository.name && r.fullName == repository.owner + "/" + repository.name
  }

  /** An issue, and not a pull request, of this repository, written by somebody. */
  predicate IdentityOk(s: SdkIssue, repository: RepositoryName) {
    && !s.isPull && s.index > 0 && s.comments >= 0
    && s.poster.Some? && s.poster.value.id > 0
    && s.repository.Some? && BelongsTo(s.repository.value, repository)
    && (s.state == "open" || s.state == "closed")
  }

  function Strings(s: SdkIssue): seq<Bytes>
    requires s.poster.Some? && s.repository.Some?
  {
    [s.poster.value.name, s.url, s.title, s.body, s.repository.value.owner, s.repository.value.name]
  }

  predicate AllProviderStrings(strings: seq<Bytes>) {
    forall i :: 0 <= i < |strings| ==> ProviderString(strings[i])
  }

  predicate DetailsOk(d: Details) {
    && d.authorID > 0 && d.author != "" && d.commentCount >= 0 && d.url != ""
    && d.created.representable && d.updated.representable && d.created.at <= d.updated.at
    && (d.deadline.Some? ==> d.deadline.value.representable)
    && (d.milestone.Some? ==> d.milestone.value != "" && ProviderString(d.milestone.value))
  }

  function DetailsOf(s: SdkIssue): Details
    requires s.poster.Some?
  {
    Details(s.poster.value.id, s.poster.value.name, s.comments, s.state == "open", s.url,
            s.created, s.updated, s.deadline, s.milestone)
  }

  /** What normalizeIssue returns. */
  function NormalForm(v: Option<SdkIssue>, repository: RepositoryName): Option<Issue> {
    match v
    case None => None
    case Some(s) =>
      if && IdentityOk(s, repository) && AllProviderStrings(Strings(s)) && s.title != "" && DetailsOk(DetailsOf(s))
         && EntriesOk(s.assignees) && EntriesOk(s.labels)
      then Some(Issue(s.index, s.title, s.body, Names(s.assignees), Names(s.labels), IDs(s.labels), DetailsOf(s)))
      else None
  }

  /** What every normalized issue satisfies. */
  predicate Normalized(issue: Issue) {
    && issue.index > 0 && issue.title != "" && ProviderString(issue.title) && ProviderString(issue.body)
    && DetailsOk(issue.details)
    && (forall i, j :: 0 <= i < j < |issue.assignees| ==> issue.assignees[i] != issue.assignees[j])
    && Catalogued(issue.labels, issue.labelIDs)
  }

  lemma NormalFormNormalized(v: Option<SdkIssue>, repository: RepositoryName)
    requires NormalForm(v, repository).Some?
    ensures Normalized(NormalForm(v, repository).value)
  {
    hide EntriesOk, Names, IDs, ProviderString, DetailsOk;
    var s := v.value;
    assert Strings(s)[2] == s.title && Strings(s)[3] == s.body;
    EntriesCatalogued(s.assignees);
    EntriesCatalogued(s.labels);
  }

  lemma SoundTexts(s: SdkIssue)
    requires s.poster.Some? && s.repository.Some?
    ensures AllProviderStrings(Strings(s)) ==>
              forall text :: text in [s.poster.value.name, s.url, s.title, s.body] ==> ValidUtf8(text) && '\0' !in text
  {
    hide ValidUtf8;
    var all := Strings(s);
    assert all[0] == s.poster.value.name && all[1] == s.url && all[2] == s.title && all[3] == s.body;
    assert AllProviderStrings(all) ==>
      ProviderString(all[0]) && ProviderString(all[1]) && ProviderString(all[2]) && ProviderString(all[3]);
  }

  /** A normalized issue is an issue of the asked repository, and repeats what the provider said of it. */
  lemma NormalizedIsAsked(v: Option<SdkIssue>, repository: RepositoryName)
    requires NormalForm(v, repository).Some?
    ensures v.Some? && v.value.repository.Some? && v.value.poster.Some? && !v.value.isPull
    ensures var r := v.value.repository.value;
            r.owner == repository.owner && r.name == repository.name && r.fullName == r.owner + "/" + r.name
    ensures var s, n := v.value, NormalForm(v, repository).value;
            && n.index == s.index > 0 && n.title == s.title != "" && n.body == s.body
            && (n.details.isOpen <==> s.state == "open") && (!n.details.isOpen <==> s.state == "closed")
            && n.details.authorID == s.poster.value.id && n.details.author == s.poster.value.name
            && n.details.commentCount == s.comments && n.details.url == s.url
            && n.details.created == s.created && n.details.updated == s.updated
            && n.details.deadline == s.deadline && n.details.milestone == s.milestone
    ensures var s := v.value;
            && s.poster.value.id > 0 && s.poster.value.name != "" && s.url != "" && s.comments >= 0
            && s.created.representable && s.updated.representable && s.created.at <= s.updated.at
            && (s.deadline.Some? ==> s.deadline.value.representable) && s.milestone != Some("")
            && (forall text :: text in [s.poster.value.name, s.url, s.title, s.body] ==>
                   ValidUtf8(text) && '\0' !in text)
    ensures var s, n := v.value, NormalForm(v, repository).value;
            && |n.assignees| == |s.assignees| && |n.labels| == |s.labels|
            && (forall i :: 0 <= i < |s.assignees| ==>
                   s.assignees[i].Some? && n.assignees[i] == s.assignees[i].value.name)
            && (forall i :: 0 <= i < |s.labels| ==>
                  && s.labels[i].Some? && n.labels[i] == s.labels[i].value.name
                  && n.labels[i] in n.labelIDs && n.labelIDs[n.labels[i]] == s.labels[i].value.id)
  {
    SoundTexts(v.value);
    hide EntriesOk, IDs, Names, AllProviderStrings, ProviderString;
    NamesAndIDs(v.value.assignees);
    NamesAndIDs(v.value.labels);
  }

  /** normalizeIssue. */
  method NormalizeIssue(v: Option<SdkIssue>, repository: RepositoryName) returns (r: Option<Issue>)
    ensures r == NormalForm(v, repository)
  {
    hide ProviderString;
    if v.None? {
      return None;
    }
    var s := v.value;
    if s.isPull || s.index <= 0 || s.poster.None? || s.poster.value.id <= 0 || s.comments < 0
       || s.repository.None? || !BelongsTo(s.repository.value, repository) {
      return None;
    }
    if s.state != "open" && s.state != "closed" {
      return None;
    }
    var fine := CheckStrings(Strings(s));
    if !fine {
      return None;
    }
    if s.poster.value.name == "" || s.url == "" || s.title == ""
       || !s.created.representable || !s.updated.representable || s.updated.at < s.created.at {
      return None;
    }
    if s.deadline.Some? && !s.deadline.value.representable {
      return None;
    }
    if s.milestone.Some? && (s.milestone.value == "" || !ProviderString(s.milestone.value)) {
      return None;
    }
    var ok, assignees, _ := NormalizeEntries(s.assignees);
    if !ok {
      return None;
    }
    var labels, labelIDs;
    ok, labels, labelIDs := NormalizeEntries(s.labels);
    if !ok {
      return None;
    }
    return Some(Issue(s.index, s.title, s.body, assignees, labels, labelIDs, DetailsOf(s)));
  }

  method CheckStrings(values: seq<Bytes>) returns (ok: bool)
    ensures ok <==> AllProviderStrings(values)
  {
    var i := 0;
    while i < |values|
      invariant 0 <= i <= |values| && AllProviderStrings(values[..i])
    {
      if !ProviderString(values[i]) {
        return false;
      }
      i := i + 1;
    }
    return true;
  }

  /** The checking loop that assignees, labels and catalogue pages all go through. */
  method NormalizeEntries(es: seq<Option<Entry>>) returns (ok: bool, names: seq<Bytes>, ids: map<Bytes, int>)
    ensures ok <==> EntriesOk(es)
    ensures ok ==> names == Names(es) && ids == IDs(es)
  {
    hide ProviderString;
    names, ids := [], map[];
    var seen: set<int> := {};
    var i := 0;
    while i < |es|
      invariant 0 <= i <= |es| && EntriesOk(es[..i])
      invariant names == Names(es[..i]) && ids == IDs(es[..i]) && seen == ids.Values
    {
      assert es[..i + 1][..i] == es[..i];
      var e := es[i];
      if e.None? || e.value.id <= 0 || e.value.name == "" || !ProviderString(e.value.name)
         || e.value.id in seen || e.value.name in ids {
        if EntriesOk(es) {
          EntriesPrefix(es, i + 1);
        }
        return false, names, ids;
      }
      ValuesStep(ids, e.value);
      seen, ids := seen + {e.value.id}, ids[e.value.name := e.value.id];
      names := names + [e.value.name];
      i := i + 1;
    }
    assert es[..i] == es;
    return true, names, ids;
  }

  lemma ValuesStep(ids: map<Bytes, int>, e: Entry)
    requires e.name !in ids
    ensures ids[e.name := e.id].Values == ids.Values + {e.id}
  {
    var next := ids[e.name := e.id];
    assert next[e.name] in next.Values;
    forall v | v in ids.Values
      ensures v in next.Values
    {
      var name :| name in ids && ids[name] == v;
      assert next[name] == v;
    }
  }
}
