/** Executing an issue edit against a provider that may fail, lie or be cancelled at any point, and reporting the
    outcome. */
module IssueEdit {
  import opened Text
  import opened IssueModel
  import opened IssuePlan

  datatype EditError =
    | Context | ProviderFailure | NotFound | IssueKind | FailedPrecondition
    | WriteOutcomeUnknown | EditPartial | ResourceExhausted

  /** The errors that reads, catalogues and planning can end in. */
  predicate ReadFailure(e: EditError) {
    e in {Context, ProviderFailure, NotFound, IssueKind, FailedPrecondition}
  }

  /** What an answer that shows no such issue makes of the read. */
  function ReadFault(answer: ReadAnswer, index: int, repository: RepositoryName): Option<EditError> {
    match answer
    case ReadError(missing, ofContext) =>
      Some(if missing then NotFound else if ofContext then Context else ProviderFailure)
    case Got(issue) =>
      if issue.Some? && issue.value.isPull then Some(IssueKind)
      else if NormalForm(issue, repository).Some? && NormalForm(issue, repository).value.index == index then None
      else Some(ProviderFailure)
  }

  datatype Reply = IssueReply(issue: Option<SdkIssue>) | LabelsReply(labels: seq<Option<Entry>>) | NoReply

  /** What a call of the provider's API came back with. */
  datatype Answer = Error | Replied(reply: Reply)

  /** A write that was invoked: what was asked of which issue, and the raw answer. */
  datatype Write = Write(op: Op, index: int, repository: RepositoryName, answer: Answer)

  /** What a read came back with: an error, which may say that there is no such issue or wrap the end of a context, or
      an issue. */
  datatype ReadAnswer = ReadError(missing: bool, ofContext: bool) | Got(issue: Option<SdkIssue>)

  /** The reply is a sound issue of the repository with this index. */
  predicate ShowsIssue(reply: Reply, index: int, repository: RepositoryName) {
    && reply.IssueReply? && reply.issue.Some? && NormalForm(reply.issue, repository).Some?
    && reply.issue.value.index == index
  }

  predicate Assigned(issue: SdkIssue, name: Bytes) {
    exists i :: 0 <= i < |issue.assignees| && issue.assignees[i].Some? && issue.assignees[i].value.name == name
  }

  /** The provider returned no error, and its own reply shows the effect of the write. */
  predicate Confirmed(w: Write) {
    w.answer.Replied? &&
    var reply := w.answer.reply;
    match w.op
    case EditText(edit) =>
      && ShowsIssue(reply, w.index, w.repository) && reply.issue.value.title == edit.title
      && (edit.body.Some? ==> reply.issue.value.body == edit.body.value)
    case DeleteAssignees(names) =>
      && ShowsIssue(reply, w.index, w.repository)
      && forall i :: 0 <= i < |names| ==> !Assigned(reply.issue.value, names[i])
    case AddAssignees(names) =>
      && ShowsIssue(reply, w.index, w.repository)
      && forall i :: 0 <= i < |names| ==> Assigned(reply.issue.value, names[i])
    case AddLabels(ids) =>
      && reply.LabelsReply? && EntriesOk(reply.labels)
      && forall i :: 0 <= i < |ids| ==> Labelled(reply.labels, ids[i])
    case DeleteLabel(_) => true
  }

  /** The validation callbacks of the writes: they go by the sets of names and ids in the normalized reply. */
  method Validate(op: Op, reply: Reply, index: int, repository: RepositoryName) returns (ok: bool)
    ensures ok <==> Confirmed(Write(op, index, repository, Replied(reply)))
  {
    hide EntriesOk, Names, IDs, NormalForm;
    if op.DeleteLabel? {
      return true;
    }
    if op.AddLabels? {
      if !reply.LabelsReply? {
        return false;
      }
      var fine, _, labels := NormalizeEntries(reply.labels);
      if !fine {
        return false;
      }
      NamesAndIDs(reply.labels);
      return forall i :: 0 <= i < |op.ids| ==> op.ids[i] in labels.Values;
    }
    if !reply.IssueReply? {
      return false;
    }
    var normal := NormalizeIssue(reply.issue, repository);
    if normal.None? {
      return false;
    }
    NormalFormIsIssue(reply.issue, repository);
    NormalFormShows(reply.issue, repository);
    var issue := normal.value;
    if issue.index != index {
      return false;
    }
    if op.EditText? {
      return issue.title == op.edit.title && (op.edit.body.Some? ==> issue.body == op.edit.body.value);
    }
    var current := ToSet(issue.assignees);
    assert forall name :: name in current <==> Assigned(reply.issue.value, name);
    if op.DeleteAssignees? {
      return forall i :: 0 <= i < |op.names| ==> op.names[i] !in current;
    }
    return forall i :: 0 <= i < |op.names| ==> op.names[i] in current;
  }

  /** A normalized issue repeats the issue it was made from. */
  lemma NormalFormShows(v: Option<SdkIssue>, repository: RepositoryName)
    requires NormalForm(v, repository).Some?
    ensures var s, n := v.value, NormalForm(v, repository).value;
            && n.index == s.index && n.title == s.title && n.body == s.body
            && (forall name :: name in n.assignees <==> Assigned(s, name))
  {
    hide EntriesOk, Names, IDs;
    NamesAndIDs(v.value.assignees);
  }

  function OpsOf(log: seq<Write>): (ops: seq<Op>)
    ensures |ops| == |log| && forall i :: 0 <= i < |log| ==> ops[i] == log[i].op
  {
    seq(|log|, i requires 0 <= i < |log| => log[i].op)
  }

  predicate AllConfirmed(log: seq<Write>) {
    forall i :: 0 <= i < |log| ==> Confirmed(log[i])
  }

  /** Only the last write is in doubt. */
  predicate LastUnconfirmed(log: seq<Write>) {
    log != [] && !Confirmed(log[|log| - 1]) && AllConfirmed(log[..|log| - 1])
  }

  /** Every write went to the issue that is being edited. */
  predicate Addressed(log: seq<Write>, index: int, repository: RepositoryName) {
    forall i :: 0 <= i < |log| ==> log[i].index == index && log[i].repository == repository
  }

  /** The issue that the last read showed. */
  function LastRead(readLog: seq<ReadAnswer>, repository: RepositoryName): Option<Issue> {
    if readLog == [] || !readLog[|readLog| - 1].Got? then None else NormalForm(readLog[|readLog| - 1].issue, repository)
  }

  // ----- faithful answers -----

  /** An answer that shows the issue as it is. */
  predicate Describes(answer: Option<SdkIssue>, index: int, repository: RepositoryName, remote: Remote,
      directory: map<int, Bytes>) {
    && NormalForm(answer, repository).Some?
    && var issue := NormalForm(answer, repository).value;
    && issue.index == index && RemoteOf(issue) == remote && Agrees(issue.labelIDs, directory)
  }

  /** There is such an answer for every issue whose strings are sound and whose users and labels are listed. */
  lemma FaithfulAnswerExists(index: int, repository: RepositoryName, remote: Remote, labels: Listing, users: Listing)
    returns (answer: SdkIssue)
    requires index > 0 && remote.title != "" && ProviderString(remote.title) && ProviderString(remote.body)
    requires ProviderString(repository.owner) && ProviderString(repository.name)
    requires remote.labels <= IDs(labels).Keys && remote.assignees <= IDs(users).Keys
    ensures Describes(Some(answer), index, repository, remote, Directory(labels))
  {
    hide ProviderString, EntriesOk, Names, IDs, Directory, Select, Agrees;
    SelectAgrees(labels, remote.labels);
    SelectAgrees(users, remote.assignees);
    var now := Time(0, true);
    answer := SdkIssue(
      false, index, Some(Entry(1, remote.title)), 0,
      Some(SdkRepository(repository.owner, repository.name, repository.owner + "/" + repository.name)), "open",
      remote.title, remote.title, remote.body, now, now, None, None,
      Select(users, remote.assignees), Select(labels, remote.labels));
  }

  lemma SelectAgrees(listing: Listing, names: set<Bytes>)
    requires names <= IDs(listing).Keys
    ensures var chosen := Select(listing, names);
            EntriesOk(chosen) && ToSet(Names(chosen)) == names && Agrees(IDs(chosen), Directory(listing))
  {
    hide EntriesOk, Names, IDs, Directory, Select;
    SelectOk(listing, names);
    DirectoryInverse(listing);
    assert names * IDs(listing).Keys == names;
  }

  /** An answer to a write that shows the issue, or its labels, as they are afterwards. */
  predicate FaithfulReply(op: Op, reply: Reply, index: int, repository: RepositoryName, after: Remote,
      directory: map<int, Bytes>) {
    match op
    case AddLabels(_) =>
      && reply.LabelsReply? && EntriesOk(reply.labels)
      && ToSet(Names(reply.labels)) == after.labels && Agrees(IDs(reply.labels), directory)
    case DeleteLabel(_) => true
    case _ => reply.IssueReply? && Describes(reply.issue, index, repository, after, directory)
  }

  /** Every label id in the write is one of the repository's. */
  predicate Known(op: Op, directory: map<int, Bytes>) {
    op.AddLabels? ==> forall i :: 0 <= i < |op.ids| ==> op.ids[i] in directory
  }

  /** A faithful answer to a write shows its effect. */
  lemma FaithfulConfirms(op: Op, reply: Reply, index: int, repository: RepositoryName, before: Remote, labels: Listing)
    requires Known(op, Directory(labels))
    requires FaithfulReply(op, reply, index, repository, Apply(before, op, Directory(labels)), Directory(labels))
    ensures Confirmed(Write(op, index, repository, Replied(reply)))
  {
    hide EntriesOk, NormalForm, IDs, Names, Directory;
    if op.AddLabels? {
      FaithfulLabels(op, reply.labels, before, labels);
    } else if !op.DeleteLabel? {
      NormalFormIsIssue(reply.issue, repository);
      NormalFormShows(reply.issue, repository);
      var issue := NormalForm(reply.issue, repository).value;
      assert forall name :: name in ToSet(issue.assignees) <==> name in issue.assignees;
      assert op.EditText? ==> RemoteOf(issue).title == op.edit.title;
      assert op.AddAssignees? ==> forall i :: 0 <= i < |op.names| ==> op.names[i] in ToSet(op.names);
      assert op.DeleteAssignees? ==> forall i :: 0 <= i < |op.names| ==> op.names[i] in ToSet(op.names);
    }
  }

  lemma NormalFormIsIssue(answer: Option<SdkIssue>, repository: RepositoryName)
    ensures NormalForm(answer, repository).Some? ==> answer.Some? && !answer.value.isPull
    ensures NormalForm(answer, repository).Some? ==> NormalForm(answer, repository).value.index == answer.value.index
  {
  }

  lemma FaithfulLabels(op: Op, reply: seq<Option<Entry>>, before: Remote, labels: Listing)
    requires op.AddLabels? && Known(op, Directory(labels)) && EntriesOk(reply)
    requires ToSet(Names(reply)) == Apply(before, op, Directory(labels)).labels && Agrees(IDs(reply), Directory(labels))
    ensures forall i :: 0 <= i < |op.ids| ==> Labelled(reply, op.ids[i])
  {
    hide EntriesOk, IDs, Names, Directory;
    var directory, ids := Directory(labels), IDs(reply);
    DirectoryInverse(labels);
    EntriesCatalogued(reply);
    NamesAndIDs(reply);
    forall i | 0 <= i < |op.ids|
      ensures Labelled(reply, op.ids[i])
    {
      var name := directory[op.ids[i]];
      assert name in NamesOf(op.ids, directory);
      assert name in ToSet(Names(reply)) && name in ids && ids[name] > 0;
      assert directory[ids[name]] == name;
      assert IDs(labels)[name] == op.ids[i] == ids[name];
      assert ids[name] in ids.Values;
    }
  }

  /** What a listing call came back with. */
  datatype ListAnswer = ListError(ofContext: bool) | Listed(entries: seq<Option<Entry>>)

  /** The answer is a sound listing that has all the names. */
  predicate Knows(answer: ListAnswer, names: seq<Bytes>) {
    answer.Listed? && EntriesOk(answer.entries) && ToSet(names) <= IDs(answer.entries).Keys
  }

  predicate FullPages(answers: seq<ListAnswer>) {
    forall i :: 0 <= i < |answers| ==> answers[i].Listed? && |answers[i].entries| == 50
  }

  predicate AllListed(answers: seq<ListAnswer>) {
    forall i :: 0 <= i < |answers| ==> answers[i].Listed? && |answers[i].entries| <= 50
  }

  /** The pages one after another. */
  function Together(answers: seq<ListAnswer>): seq<Option<Entry>> {
    if answers == [] then []
    else
      var last := answers[|answers| - 1];
      Together(answers[..|answers| - 1]) + (if last.Listed? then last.entries else [])
  }

  /** A short page among the first twenty ends a listing, or an empty one after them. */
  predicate Complete(answers: seq<ListAnswer>) {
    && AllListed(answers) && answers != []
    && var last := answers[|answers| - 1].entries;
    && (|answers| <= 20 ==> |last| < 50) && (|answers| > 20 ==> |answers| == 21 && last == [])
    && forall i :: 0 <= i < |answers| - 1 ==> |answers[i].entries| == 50
  }

  lemma OneMorePage(answers: seq<ListAnswer>, a: ListAnswer)
    ensures Together(answers + [a]) == Together(answers) + (if a.Listed? then a.entries else [])
  {
    assert (answers + [a])[..|answers|] == answers;
  }

  /** One page of a listing, fifty entries at a time. */
  function Page(labels: seq<Option<Entry>>, page: nat): seq<Option<Entry>>
    requires page > 0
  {
    labels[Clip(labels, 50 * (page - 1))..Clip(labels, 50 * page)]
  }

  function Clip(labels: seq<Option<Entry>>, n: nat): nat {
    if n < |labels| then n else |labels|
  }

  /** The adversary: every answer is arbitrary. It keeps a record of the writes invoked and the issues read.

      Beside it stands what a provider that does what it is told would hold: its label and user listings, and the issue.
      `faithful` says whether every answer so far was the one that such a provider gives. */
  class Provider {
    const repository: RepositoryName
    ghost const labels: Listing
    ghost const users: Listing
    var cancelled: bool
    ghost var log: seq<Write>
    ghost var readLog: seq<ReadAnswer>
    ghost var pages: seq<ListAnswer>
    ghost var userLists: seq<ListAnswer>
    ghost var seen: seq<Issue>
    ghost var remote: Remote
    ghost var faithful: bool

    constructor (repository: RepositoryName, ghost labels: Listing, ghost users: Listing, ghost remote: Remote)
      ensures this.repository == repository && this.labels == labels && this.users == users && this.remote == remote
      ensures log == [] && readLog == [] && seen == [] && faithful && !cancelled
    {
      this.repository, this.labels, this.users, this.remote := repository, labels, users, remote;
      cancelled, faithful := false, true;
      log, readLog, pages, userLists, seen := [], [], [], [], [];
    }

    /** Neither a false answer nor a cancellation so far. */
    ghost predicate Undisturbed()
      reads this
    {
      faithful && !cancelled
    }

    /** ctx.Err(): a context may be cancelled at any time, and stays cancelled. */
    method ContextError() returns (err: bool)
      modifies this`cancelled
      ensures err == cancelled && (old(cancelled) ==> cancelled)
    {
      var now: bool := *;
      cancelled := cancelled || now;
      err := cancelled;
    }

    /** classifyProviderError: an error that wraps the end of a context, or comes after it, is told as that. */
    method ProviderError(ofContext: bool) returns (err: EditError)
      modifies this`cancelled
      ensures old(cancelled) ==> cancelled
      ensures err == if ofContext || cancelled then Context else ProviderFailure
    {
      if ofContext {
        return Context;
      }
      var stop := ContextError();
      return if stop then Context else ProviderFailure;
    }

    /** The API's read. Whatever it answers is on record. */
    method GetIssue(index: int) returns (answer: ReadAnswer)
      modifies this`readLog, this`faithful
      ensures readLog == old(readLog) + [answer]
      ensures faithful ==>
          old(faithful) && answer.Got? && Describes(answer.issue, index, repository, remote, Directory(labels))
    {
      answer := *;
      readLog := readLog + [answer];
      faithful := faithful && answer.Got? && Describes(answer.issue, index, repository, remote, Directory(labels));
    }

    /** issuePreflight: an issue is the normal form of the last answer, and an error is what that answer calls for. */
    method ReadIssue(index: int) returns (issue: Option<Issue>, err: EditError)
      modifies this`cancelled, this`readLog, this`seen, this`faithful
      ensures Undisturbed() ==> old(Undisturbed()) && issue.Some?
      ensures issue.Some? ==> LastRead(readLog, repository) == issue
      ensures issue.Some? ==> seen == old(seen) + [issue.value] && Normalized(issue.value) && issue.value.index == index
      ensures issue.Some? && faithful ==> old(faithful) && Shows(issue.value)
      ensures old(readLog) <= readLog
      ensures issue.None? ==> seen == old(seen) && ReadFailure(err)
      ensures issue.None? && err != Context ==>
          readLog != [] && ReadFault(readLog[|readLog| - 1], index, repository) == Some(err)
      ensures issue.None? && err == Context ==>
                cancelled || (readLog != [] && ReadFault(readLog[|readLog| - 1], index, repository) == Some(Context))
    {
      hide NormalForm, Normalized, Directory, Agrees, RemoteOf;
      var stop := ContextError();
      if stop {
        return None, Context;
      }
      var answer := GetIssue(index);
      if answer.ReadError? {
        if answer.missing {
          return None, NotFound;
        }
        err := ProviderError(answer.ofContext);
        return None, err;
      }
      NormalFormIsIssue(answer.issue, repository);
      if answer.issue.None? {
        return None, ProviderFailure;
      }
      if answer.issue.value.isPull {
        return None, IssueKind;
      }
      var normal := NormalizeIssue(answer.issue, repository);
      if normal.None? || normal.value.index != index {
        return None, ProviderFailure;
      }
      NormalFormNormalized(answer.issue, repository);
      seen := seen + [normal.value];
      return normal, ProviderFailure;
    }

    /** The issue as read is the issue as it is. */
    ghost predicate Shows(issue: Issue)
      reads this
    {
      RemoteOf(issue) == remote && Agrees(issue.labelIDs, Directory(labels))
    }

    /** The API's writes. Whatever is asked and answered is on record. */
    method Call(op: Op, index: int) returns (answer: Answer)
      modifies this`log, this`remote, this`faithful
      ensures log == old(log) + [Write(op, index, repository, answer)]
      ensures faithful ==> old(faithful) && answer.Replied? && remote == Apply(old(remote), op, Directory(labels))
      ensures faithful ==> FaithfulReply(op, answer.reply, index, repository, remote, Directory(labels))
    {
      answer := *;
      log := log + [Write(op, index, repository, answer)];
      ghost var after := Apply(remote, op, Directory(labels));
      faithful := faithful && answer.Replied? &&
        FaithfulReply(op, answer.reply, index, repository, after, Directory(labels));
      if faithful {
        remote := after;
      } else {
        remote := *;
      }
    }

    /** invokeWrite: past the context check the write is invoked; without an error the provider's answer shows its
        effect, and any other answer leaves its outcome unknown. */
    method InvokeWrite(op: Op, index: int) returns (err: Option<EditError>, ghost answer: Answer)
      modifies this`cancelled, this`log, this`remote, this`faithful
      ensures old(cancelled) ==> cancelled
      ensures faithful ==> old(faithful)
      ensures err == Some(Context) ==> log == old(log) && cancelled && remote == old(remote)
      ensures err != Some(Context) ==> log == old(log) + [Write(op, index, repository, answer)]
      ensures err.None? ==> Confirmed(Write(op, index, repository, answer))
      ensures err.Some? && err != Some(Context) ==>
                err == Some(WriteOutcomeUnknown) && !Confirmed(Write(op, index, repository, answer))
      ensures err == Some(WriteOutcomeUnknown) ==> !faithful || !Known(op, Directory(labels))
      ensures faithful && err != Some(Context) ==> remote == Apply(old(remote), op, Directory(labels))
    {
      hide Directory, FaithfulReply, Apply;
      answer := Error;
      var stop := ContextError();
      if stop {
        return Some(Context), answer;
      }
      ghost var before := remote;
      var came := Call(op, index);
      answer := came;
      if came.Error? {
        return Some(WriteOutcomeUnknown), answer;
      }
      if faithful && Known(op, Directory(labels)) {
        FaithfulConfirms(op, came.reply, index, repository, before, labels);
      }
      var ok := Validate(op, came.reply, index, repository);
      return if ok then None else Some(WriteOutcomeUnknown), answer;
    }

    // ----- catalogues -----

    /** The repository lists at most a thousand labels, all of these among them. */
    ghost predicate Lists(requested: seq<Bytes>) {
      requested != [] ==> |labels| <= 1000 && ToSet(requested) <= IDs(labels).Keys
    }

    /** resolveLabelIDs: at most 20 full pages of labels, then the id that the listing gives for every requested
        name. */
    method ResolveLabelIDs(requested: seq<Bytes>) returns (ids: Option<seq<int>>, err: EditError, ghost listed: Listing)
      modifies this`cancelled, this`faithful, this`pages
      ensures old(pages) <= pages
      ensures ids.Some? && requested != [] ==>
                Complete(pages[|old(pages)|..]) && listed == Together(pages[|old(pages)|..])
      ensures old(cancelled) ==> cancelled
      ensures faithful ==> old(faithful)
      ensures ids.Some? ==> |ids.value| == |requested|
      ensures ids.Some? ==>
                forall i :: 0 <= i < |requested| ==>
                    requested[i] in IDs(listed) && ids.value[i] == IDs(listed)[requested[i]]
      ensures ids.Some? && faithful && requested != [] ==> listed == labels
      ensures ids.None? ==> ReadFailure(err)
      ensures Undisturbed() ==> (ids.Some? <==> Lists(requested)) && (ids.None? ==> err == FailedPrecondition)
    {
      listed := [];
      if requested == [] {
        return Some([]), ProviderFailure, listed;
      }
      var byName: Option<map<Bytes, int>>;
      byName, err, listed := Catalogue();
      if byName.None? {
        return None, err, listed;
      }
      var out: seq<int> := [];
      var i := 0;
      while i < |requested|
        invariant 0 <= i <= |requested| && |out| == i
        invariant forall j :: 0 <= j < i ==> requested[j] in IDs(listed) && out[j] == IDs(listed)[requested[j]]
      {
        if requested[i] !in byName.value {
          assert requested[i] in ToSet(requested);
          return None, FailedPrecondition, listed;
        }
        out := out + [byName.value[requested[i]]];
        i := i + 1;
      }
      return Some(out), ProviderFailure, listed;
    }

    /** The paging loop. Twenty pages of fifty, and a twenty-first that must be empty. */
    method Catalogue() returns (byName: Option<map<Bytes, int>>, err: EditError, ghost listed: Listing)
      modifies this`cancelled, this`faithful, this`pages
      ensures old(cancelled) ==> cancelled
      ensures faithful ==> old(faithful)
      ensures old(pages) <= pages
      ensures byName.Some? ==> Complete(pages[|old(pages)|..]) && listed == Together(pages[|old(pages)|..])
      ensures byName.Some? ==> byName.value == IDs(listed) && (faithful ==> listed == labels && |labels| <= 1000)
      ensures byName.None? ==> ReadFailure(err)
      ensures Undisturbed() && byName.None? ==> |labels| > 1000 && err == FailedPrecondition
    {
      hide EntriesOk, IDs, Together;
      NothingListed();
      listed := [];
      var all: seq<Option<Entry>>, found: map<Bytes, int> := [], map[];
      ghost var made: seq<ListAnswer> := [];
      var complete := false;
      var page := 1;
      while page <= 21 && !complete
        invariant 1 <= page <= 21 && EntriesOk(all) && found == IDs(all)
        invariant old(cancelled) ==> cancelled
        invariant faithful ==> old(faithful)
        invariant pages == old(pages) + made && all == Together(made)
        invariant !complete ==> FullPages(made) && |made| == page - 1
        invariant complete ==> Complete(made)
        invariant faithful && !complete ==> all == labels[..Clip(labels, 50 * (page - 1))]
        invariant faithful && complete ==> all == labels && |labels| <= 1000
        decreases 22 - page, !complete
      {
        var stop := ContextError();
        if stop {
          return None, Context, listed;
        }
        var answer := ListRepoLabels(page);
        OneMorePage(made, answer);
        made := made + [answer];
        if answer.ListError? {
          err := ProviderError(answer.ofContext);
          return None, err, listed;
        }
        if faithful {
          NextPage(labels, page);
        }
        if |answer.entries| > 50 {
          return None, ProviderFailure, listed;
        }
        if page == 21 {
          if answer.entries != [] {
            return None, FailedPrecondition, listed;
          }
          complete := true;
        } else {
          if faithful {
            EntriesPrefix(labels, Clip(labels, 50 * page));
          }
          all := all + answer.entries;
          var ok, _, ids' := NormalizeEntries(all);
          if !ok {
            return None, ProviderFailure, listed;
          }
          found := ids';
          complete := |answer.entries| < 50;
          if !complete {
            page := page + 1;
          }
        }
      }
      // Page 21 either completes the listing or ends the search, so the loop ends complete.
      assert pages[|old(pages)|..] == made;
      listed := all;
      return Some(found), ProviderFailure, listed;
    }

    /** The API's label listing. Whatever it answers is on record. */
    method ListRepoLabels(page: nat) returns (answer: ListAnswer)
      requires page > 0
      modifies this`faithful, this`pages
      ensures pages == old(pages) + [answer]
      ensures faithful ==> old(faithful) && answer == Listed(Page(labels, page))
    {
      answer := *;
      pages := pages + [answer];
      faithful := faithful && answer == Listed(Page(labels, page));
    }

    /** The API's listing of assignable users. */
    method GetAssignees() returns (answer: ListAnswer)
      modifies this`faithful, this`userLists
      ensures userLists == old(userLists) + [answer]
      ensures faithful ==> old(faithful) && answer == Listed(users)
    {
      answer := *;
      userLists := userLists + [answer];
      faithful := faithful && answer == Listed(users);
    }

    /** The assignee half of collectEditCatalogs: everyone to be assigned must be known to the provider. */
    method CheckAssignees(names: seq<Bytes>) returns (err: Option<EditError>)
      modifies this`cancelled, this`faithful, this`userLists
      ensures old(cancelled) ==> cancelled
      ensures faithful ==> old(faithful)
      ensures old(userLists) <= userLists
      ensures err.None? ==> userLists != [] && Knows(userLists[|userLists| - 1], names)
      ensures err.Some? ==> ReadFailure(err.value)
      ensures err == Some(FailedPrecondition) ==> userLists != [] && !Knows(userLists[|userLists| - 1], names)
      ensures Undisturbed() ==>
          (err.None? <==> ToSet(names) <= IDs(users).Keys) && (err.Some? ==> err.value == FailedPrecondition)
    {
      hide EntriesOk, IDs;
      var stop := ContextError();
      if stop {
        return Some(Context);
      }
      var answer := GetAssignees();
      if answer.ListError? {
        var failure := ProviderError(answer.ofContext);
        return Some(failure);
      }
      var ok, _, userIDs := NormalizeEntries(answer.entries);
      if !ok {
        return Some(ProviderFailure);
      }
      EntriesCatalogued(answer.entries);
      if exists i :: 0 <= i < |names| && Lookup(userIDs, names[i]) <= 0 {
        assert exists i :: 0 <= i < |names| && names[i] !in userIDs && names[i] in ToSet(names);
        return Some(FailedPrecondition);
      }
      return None;
    }

    /** What must be true of the repository for the edit to be possible at all. */
    ghost predicate Possible(intent: Intent, issue: Issue)
      reads this
    {
      && (intent.assigneeMode == Set || intent.assigneeMode == Add ==> ToSet(intent.assignees) <= IDs(users).Keys)
      && Lists(NeededLabelNames(intent, issue))
    }

    /** collectEditCatalogs: afterwards every label the intent may ever have to add has an id, and when the provider is
        faithful the ids are its own. */
    method CollectCatalog(intent: Intent, issue: Issue) returns (catalog: Option<map<Bytes, int>>, err: EditError)
      requires ValidIntent(intent) && Normalized(issue)
      modifies this`cancelled, this`faithful, this`pages, this`userLists
      ensures old(cancelled) ==> cancelled
      ensures faithful ==> old(faithful)
      ensures catalog.Some? && (intent.assigneeMode == Set || intent.assigneeMode == Add) && intent.assignees != [] ==>
                userLists != [] && Knows(userLists[|userLists| - 1], intent.assignees)
      ensures catalog.Some? ==> Covers(intent, catalog.value)
      ensures catalog.None? ==> ReadFailure(err)
      ensures faithful && Agrees(issue.labelIDs, Directory(labels)) && catalog.Some? ==>
          Agrees(catalog.value, Directory(labels))
      ensures Undisturbed() && Agrees(issue.labelIDs, Directory(labels)) ==>
                (catalog.Some? <==> Possible(intent, issue)) && (catalog.None? ==> err == FailedPrecondition)
    {
      hide EntriesOk, IDs, Directory, Covers, Normalized;
      if (intent.assigneeMode == Set || intent.assigneeMode == Add) && intent.assignees != [] {
        var failure := CheckAssignees(intent.assignees);
        if failure.Some? {
          return None, failure.value;
        }
      }
      catalog, err := CollectLabels(intent, issue);
    }

    /** The label half. */
    method CollectLabels(intent: Intent, issue: Issue) returns (catalog: Option<map<Bytes, int>>, err: EditError)
      requires ValidIntent(intent) && Normalized(issue)
      modifies this`cancelled, this`faithful, this`pages, this`userLists
      ensures old(cancelled) ==> cancelled
      ensures faithful ==> old(faithful)
      ensures userLists == old(userLists)
      ensures catalog.Some? ==> Covers(intent, catalog.value)
      ensures catalog.None? ==> ReadFailure(err)
      ensures faithful && Agrees(issue.labelIDs, Directory(labels)) && catalog.Some? ==>
          Agrees(catalog.value, Directory(labels))
      ensures Undisturbed() && Agrees(issue.labelIDs, Directory(labels)) ==>
                (catalog.Some? <==> Lists(NeededLabelNames(intent, issue))) &&
                    (catalog.None? ==> err == FailedPrecondition)
    {
      hide EntriesOk, IDs, Directory, Covers, Normalized, Lookup;
      var needed := NeededLabelNames(intent, issue);
      if needed == [] {
        catalog := RecordLabels(intent, issue, needed, [], Directory(labels));
        return catalog, ProviderFailure;
      }
      var ids;
      ghost var listed;
      ids, err, listed := ResolveLabelIDs(needed);
      if ids.None? {
        return None, err;
      }
      ListedIDs(listed, needed, ids.value);
      if faithful && Agrees(issue.labelIDs, Directory(labels)) && intent.labelMode == Remove {
        SameAsListed(labels, issue, needed, ids.value);
      }
      catalog := RecordLabels(intent, issue, needed, ids.value, Directory(labels));
      return catalog, ProviderFailure;
    }

    // ----- execution -----

    /** executeIssueEditPlan: the writes of the plan in order, up to the first that is not confirmed. */
    method ExecutePlan(plan: Plan, index: int, confirmed: bool) returns (err: Option<EditError>, facts: bool)
      modifies this`cancelled, this`log, this`remote, this`faithful
      ensures old(log) <= log
      ensures old(cancelled) ==> cancelled
      ensures faithful ==> old(faithful)
      ensures var made := log[|old(log)|..];
              && OpsOf(made) <= Ops(plan)
              && facts == (confirmed || SomeConfirmed(made))
              && (err.None? ==> OpsOf(made) == Ops(plan) && AllConfirmed(made))
              && (err.Some? ==> err.value == Context || err.value == WriteOutcomeUnknown)
              && (err == Some(Context) ==> AllConfirmed(made))
              && (err == Some(WriteOutcomeUnknown) ==> LastUnconfirmed(made))
              && Addressed(made, index, repository)
      ensures err == Some(Context) ==> cancelled
      ensures err == Some(WriteOutcomeUnknown) && faithful ==> !AllIDsKnown(plan, Directory(labels))
      ensures err.None? && faithful ==> remote == ApplyAll(old(remote), Ops(plan), Directory(labels))
    {
      hide Directory, Apply, Ops, Confirmed;
      var ops := Ops(plan);
      facts := confirmed;
      var i := 0;
      while i < |ops|
        invariant 0 <= i <= |ops|
        invariant |log| == |old(log)| + i && WrittenUpTo(old(log), log, ops, index, repository)
        invariant facts == (confirmed || i > 0)
        invariant (old(cancelled) ==> cancelled) && (faithful ==> old(faithful))
        invariant faithful ==> remote == ApplyAll(old(remote), ops[..i], Directory(labels))
      {
        ghost var before := remote;
        ghost var sofar := log;
        ghost var answer;
        err, answer := InvokeWrite(ops[i], index);
        if err.Some? {
          OneMoreWrite(old(log), sofar, log, ops, i, Write(ops[i], index, repository, answer), err.value);
          if AllIDsKnown(plan, Directory(labels)) {
            PlanOpsKnown(plan, Directory(labels), i);
          }
          return;
        }
        ApplyOneMore(old(remote), ops, i, Directory(labels));
        facts := true;
        i := i + 1;
      }
      assert ops[..i] == ops;
      AllWritten(old(log), log, ops, index, repository);
      return None, facts;
    }
  }

  lemma NothingListed()
    ensures EntriesOk([]) && IDs([]) == map[] && Together([]) == []
  {
  }

  /** The pages so far and the next one. */
  lemma NextPage(labels: seq<Option<Entry>>, page: nat)
    requires 0 < page
    ensures labels[..Clip(labels, 50 * (page - 1))] + Page(labels, page) == labels[..Clip(labels, 50 * page)]
    ensures |Page(labels, page)| <= 50
    ensures |Page(labels, page)| < 50 ==> labels[..Clip(labels, 50 * page)] == labels && |labels| <= 50 * page
  {
  }

  /** Every label id the plan adds is one of the repository's. */
  predicate AllIDsKnown(plan: Plan, directory: map<int, Bytes>) {
    forall i :: 0 <= i < |plan.addLabelIDs| ==> plan.addLabelIDs[i] in directory
  }

  lemma PlanOpsKnown(plan: Plan, directory: map<int, Bytes>, i: nat)
    requires AllIDsKnown(plan, directory) && i < |Ops(plan)|
    ensures Known(Ops(plan)[i], directory)
  {
    DeletionsOnly(plan.removeLabelIDs);
  }

  lemma {:induction false} DeletionsOnly(ids: seq<int>)
    ensures forall i :: 0 <= i < |Deletions(ids)| ==> Deletions(ids)[i].DeleteLabel?
  {
    if ids != [] {
      DeletionsOnly(ids[1..]);
    }
  }

  lemma ApplyOneMore(r: Remote, ops: seq<Op>, i: nat, directory: map<int, Bytes>)
    requires i < |ops|
    ensures ApplyAll(r, ops[..i + 1], directory) == Apply(ApplyAll(r, ops[..i], directory), ops[i], directory)
  {
    hide Apply;
    assert ops[..i + 1] == ops[..i] + [ops[i]];
    ApplyAppend(r, ops[..i], [ops[i]], directory);
    assert [ops[i]][1..] == [];
  }

  /** The log while a plan is carried out: the earlier writes, then the plan's, confirmed. */
  predicate WrittenUpTo(start: seq<Write>, log: seq<Write>, ops: seq<Op>, index: int, repository: RepositoryName) {
    && start <= log && |log| <= |start| + |ops|
    && forall k :: |start| <= k < |log| ==>
         && Confirmed(log[k]) && log[k].op == ops[k - |start|] && log[k].index == index &&
                log[k].repository == repository
  }

  lemma AllWritten(start: seq<Write>, log: seq<Write>, ops: seq<Op>, index: int, repository: RepositoryName)
    requires WrittenUpTo(start, log, ops, index, repository)
    ensures var made := log[|start|..];
            && OpsOf(made) <= ops && AllConfirmed(made) && Addressed(made, index, repository)
            && (SomeConfirmed(made) <==> |log| > |start|)
    ensures |log| == |start| + |ops| ==> OpsOf(log[|start|..]) == ops
  {
    hide Confirmed;
    var made := log[|start|..];
    assert made != [] ==> Confirmed(made[0]);
  }

  lemma OneMoreWrite(start: seq<Write>, sofar: seq<Write>, log: seq<Write>, ops: seq<Op>, i: nat, w: Write,
      err: EditError)
    requires WrittenUpTo(start, sofar, ops, w.index, w.repository) && |sofar| == |start| + i && i < |ops| &&
        w.op == ops[i]
    requires err == Context ==> log == sofar
    requires err == WriteOutcomeUnknown ==> log == sofar + [w] && !Confirmed(w)
    requires err == Context || err == WriteOutcomeUnknown
    ensures var made := log[|start|..];
            && start <= log && OpsOf(made) <= ops && (SomeConfirmed(made) <==> i > 0)
            && (err == Context ==> AllConfirmed(made))
            && (err == WriteOutcomeUnknown ==> LastUnconfirmed(made))
            && Addressed(made, w.index, w.repository)
  {
    hide Confirmed;
    AllWritten(start, sofar, ops, w.index, w.repository);
    if err == WriteOutcomeUnknown {
      UnconfirmedWrite(sofar[|start|..], ops, i, w);
      assert log[|start|..] == sofar[|start|..] + [w];
    }
  }

  lemma UnconfirmedWrite(done: seq<Write>, ops: seq<Op>, i: nat, w: Write)
    requires |done| == i < |ops| && OpsOf(done) <= ops && AllConfirmed(done) && w.op == ops[i] && !Confirmed(w)
    requires Addressed(done, w.index, w.repository)
    ensures var made := done + [w];
            && OpsOf(made) <= ops && LastUnconfirmed(made) && (SomeConfirmed(made) <==> i > 0)
            && Addressed(made, w.index, w.repository)
  {
    hide Confirmed, OpsOf;
    var made := done + [w];
    assert made[..|made| - 1] == done && made[|made| - 1] == w;
    assert i > 0 ==> Confirmed(made[0]);
    OpsOfMore(done, ops, w);
  }

  lemma OpsOfMore(done: seq<Write>, ops: seq<Op>, w: Write)
    requires |done| < |ops| && OpsOf(done) <= ops && w.op == ops[|done|]
    ensures OpsOf(done + [w]) <= ops
  {
    forall k | 0 <= k < |done| + 1
      ensures OpsOf(done + [w])[k] == ops[k]
    {
      assert k < |done| ==> OpsOf(done)[k] == ops[k];
    }
  }

  /** In add mode, requested labels already on the issue keep the id they have there. */
  function PresentLabels(intent: Intent, issue: Issue): (labels: map<Bytes, int>)
    requires Normalized(issue)
    ensures intent.labelMode == Add ==>
              forall name :: name in issue.labels && name in intent.labels ==> Lookup(labels, name) > 0
  {
    if intent.labelMode == Add then
      assert forall name :: name in issue.labels ==> name in ToSet(issue.labels);
      map name | name in issue.labels && name in intent.labels :: Lookup(issue.labelIDs, name)
    else map[]
  }

  /** neededLabelNames: labels still to add, or present ones to remove. */
  function NeededLabelNames(intent: Intent, issue: Issue): (names: seq<Bytes>)
    ensures forall name :: name in names <==>
              && name in intent.labels
              && ((intent.labelMode == Add && name !in issue.labels) ||
                     (intent.labelMode == Remove && name in issue.labels))
  {
    NeededFrom(intent, issue, intent.labels)
  }

  function NeededFrom(intent: Intent, issue: Issue, requested: seq<Bytes>): (names: seq<Bytes>)
    ensures forall name :: name in names <==>
              && name in requested
              && ((intent.labelMode == Add && name !in issue.labels) ||
                     (intent.labelMode == Remove && name in issue.labels))
  {
    if requested == [] then []
    else
      var name := requested[0];
      var rest := NeededFrom(intent, issue, requested[1..]);
      if (intent.labelMode == Add && name !in issue.labels) || (intent.labelMode == Remove && name in issue.labels)
      then [name] + rest else rest
  }

  /** The ids found for the names agree with a directory, and none is missing. */
  predicate AgreeingIDs(names: seq<Bytes>, ids: seq<int>, directory: map<int, Bytes>) {
    |ids| == |names| && forall i :: 0 <= i < |names| ==> ids[i] in directory && directory[ids[i]] == names[i]
  }

  predicate SameIDs(issue: Issue, names: seq<Bytes>, ids: seq<int>) {
    |ids| == |names| && forall i :: 0 <= i < |names| ==> Lookup(issue.labelIDs, names[i]) == ids[i]
  }

  lemma ListedIDs(listed: Listing, names: seq<Bytes>, ids: seq<int>)
    requires |ids| == |names| && forall i :: 0 <= i < |names| ==>
        names[i] in IDs(listed) && ids[i] == IDs(listed)[names[i]]
    ensures forall i :: 0 <= i < |ids| ==> ids[i] > 0
    ensures AgreeingIDs(names, ids, Directory(listed))
  {
    hide EntriesOk, IDs, Directory;
    DirectoryInverse(listed);
    EntriesCatalogued(listed);
  }

  /** An issue whose ids agree with the listing shows the listed ids. */
  lemma SameAsListed(labels: Listing, issue: Issue, names: seq<Bytes>, ids: seq<int>)
    requires Normalized(issue) && Agrees(issue.labelIDs, Directory(labels))
    requires forall i :: 0 <= i < |names| ==> names[i] in issue.labels
    requires AgreeingIDs(names, ids, Directory(labels))
    ensures SameIDs(issue, names, ids)
  {
    hide EntriesOk, IDs, Directory;
    DirectoryInverse(labels);
    forall i | 0 <= i < |names|
      ensures Lookup(issue.labelIDs, names[i]) == ids[i]
    {
      assert names[i] in ToSet(issue.labels);
      var id := issue.labelIDs[names[i]];
      assert Directory(labels)[id] == names[i] == Directory(labels)[ids[i]];
      assert IDs(labels)[names[i]] == id == ids[i];
    }
  }

  /** The recording loop of collectEditCatalogs: a label to be removed must have the id it has on the issue. */
  method RecordLabels(intent: Intent, issue: Issue, needed: seq<Bytes>, ids: seq<int>, ghost directory: map<int, Bytes>)
    returns (catalog: Option<map<Bytes, int>>)
    requires Normalized(issue) && needed == NeededLabelNames(intent, issue)
    requires |ids| == |needed| && forall i :: 0 <= i < |ids| ==> ids[i] > 0
    ensures catalog.None? <==> intent.labelMode == Remove && !SameIDs(issue, needed, ids)
    ensures catalog.Some? ==> Covers(intent, catalog.value)
    ensures catalog.Some? && Agrees(issue.labelIDs, directory) && AgreeingIDs(needed, ids, directory) ==>
              Agrees(catalog.value, directory)
  {
    hide NeededLabelNames;
    var found := PresentLabels(intent, issue);
    var i := 0;
    while i < |needed|
      invariant 0 <= i <= |needed|
      invariant intent.labelMode == Remove ==> SameIDs(issue, needed[..i], ids[..i])
      invariant forall j :: 0 <= j < i ==> Lookup(found, needed[j]) > 0
      invariant forall name :: Lookup(PresentLabels(intent, issue), name) > 0 ==> Lookup(found, name) > 0
      invariant Agrees(issue.labelIDs, directory) && AgreeingIDs(needed, ids, directory) ==> Agrees(found, directory)
    {
      if intent.labelMode == Remove && Lookup(issue.labelIDs, needed[i]) != ids[i] {
        return None;
      }
      found := found[needed[i] := ids[i]];
      i := i + 1;
    }
    assert needed[..i] == needed && ids[..i] == ids;
    CatalogCovers(intent, issue, needed, found);
    return Some(found);
  }

  lemma CatalogCovers(intent: Intent, issue: Issue, needed: seq<Bytes>, found: map<Bytes, int>)
    requires Normalized(issue) && needed == NeededLabelNames(intent, issue)
    requires forall j :: 0 <= j < |needed| ==> Lookup(found, needed[j]) > 0
    requires forall name :: Lookup(PresentLabels(intent, issue), name) > 0 ==> Lookup(found, name) > 0
    ensures Covers(intent, found)
  {
    forall name | intent.labelMode == Add && name in ToSet(intent.labels)
      ensures Lookup(found, name) > 0
    {
      assert name in issue.labels || name in needed;
    }
  }

  // ----- the whole edit -----

  datatype EditResult = Edited(issue: Issue, transition: bool) | Failed(error: EditError)

  /** classifyEditKnownFailure. */
  function KnownFailure(confirmed: bool, err: EditError): EditError {
    if confirmed then EditPartial else err
  }

  predicate SomeConfirmed(log: seq<Write>) {
    exists i :: 0 <= i < |log| && Confirmed(log[i])
  }

  /** What each outcome says about the writes that were invoked and the issue last read. */
  ghost predicate Truthful(intent: Intent, r: EditResult, log: seq<Write>, seen: seq<Issue>) {
    match r
    case Edited(issue, transition) =>
      && seen != [] && issue == seen[|seen| - 1] && EditSatisfied(intent, issue)
      && (transition <==> log != [])
    case Failed(EditPartial) => SomeConfirmed(log) && AllConfirmed(log)
    case Failed(WriteOutcomeUnknown) => LastUnconfirmed(log)
    case Failed(ResourceExhausted) => seen != [] && EditSatisfied(intent, seen[|seen| - 1])
    case Failed(_) => log == []
  }

  /** editResponse: a satisfied issue whose response would exceed the size limit is refused all the same. */
  method Respond(issue: Issue, transition: bool) returns (r: EditResult)
    ensures r == Edited(issue, transition) || r == Failed(ResourceExhausted)
  {
    var tooLarge: bool := *;
    r := if tooLarge then Failed(ResourceExhausted) else Edited(issue, transition);
  }

  /** resolveIssueEditFailure: a write of unknown outcome is settled by reading the issue again, if that still works. */
  method ResolveFailure(provider: Provider, index: int, intent: Intent, confirmed: bool, err: EditError)
    returns (r: EditResult)
    requires err == WriteOutcomeUnknown ==> LastUnconfirmed(provider.log)
    requires err == Context ==> AllConfirmed(provider.log) && (confirmed <==> provider.log != [])
    requires err == WriteOutcomeUnknown || err == Context
    modifies provider`cancelled, provider`readLog, provider`seen, provider`faithful
    ensures old(provider.seen) <= provider.seen
    ensures provider.Undisturbed() ==> old(provider.Undisturbed())
    ensures Truthful(intent, r, provider.log, provider.seen)
    ensures r.Edited? ==> LastRead(provider.readLog, provider.repository) == Some(r.issue)
  {
    if err != WriteOutcomeUnknown {
      assert provider.log != [] ==> Confirmed(provider.log[0]);
      return Failed(KnownFailure(confirmed, err));
    }
    var stop := provider.ContextError();
    if !stop {
      var issue, _ := provider.ReadIssue(index);
      if issue.Some? && EditSatisfied(intent, issue.value) {
        r := Respond(issue.value, true);
        return;
      }
    }
    return Failed(WriteOutcomeUnknown);
  }

  /** The writes made are a prefix of the plan for the first issue read, followed by the plan for the second. */
  ghost predicate Followed(intent: Intent, catalog: map<Bytes, int>, log: seq<Write>, seen: seq<Issue>) {
    log != [] ==>
      && seen != [] && PlanOf(intent, seen[0], catalog).Some?
      && var first := Ops(PlanOf(intent, seen[0], catalog).value);
      && (|log| <= |first| ==> OpsOf(log) <= first)
      && (|log| > |first| ==>
            && |seen| >= 2 && PlanOf(intent, seen[1], catalog).Some?
            && OpsOf(log) <= first + Ops(PlanOf(intent, seen[1], catalog).value))
  }

  /** The edit is reported with the issue as it now is, or its response was too large to send. */
  predicate Achieved(r: EditResult, remote: Remote) {
    match r
    case Edited(issue, _) => RemoteOf(issue) == remote
    case Failed(error) => error == ResourceExhausted
  }

  /** The rest of issueEdit once the first plan has been carried out: read, correct once, read again. */
  method Correct(provider: Provider, index: int, intent: Intent, catalog: map<Bytes, int>) returns (r: EditResult)
    requires ValidIntent(intent) && Covers(intent, catalog)
    requires |provider.seen| == 1 && PlanOf(intent, provider.seen[0], catalog).Some?
    requires provider.log != [] && AllConfirmed(provider.log)
    requires OpsOf(provider.log) == Ops(PlanOf(intent, provider.seen[0], catalog).value)
    requires Addressed(provider.log, index, provider.repository)
    modifies provider
    ensures Truthful(intent, r, provider.log, provider.seen)
    ensures r.Edited? ==> LastRead(provider.readLog, provider.repository) == Some(r.issue)
    ensures Addressed(provider.log, index, provider.repository)
    ensures Followed(intent, catalog, provider.log, provider.seen)
    ensures old(provider.seen) <= provider.seen
    ensures provider.Undisturbed() ==> old(provider.Undisturbed())
    ensures provider.Undisturbed() && old(provider.remote) == Wanted(intent, provider.seen[0]) ==>
              provider.remote == old(provider.remote) && Achieved(r, provider.remote)
  {
    hide PlanOf, Ops, EditSatisfied, Normalized, Covers, LastUnconfirmed, Wanted, RemoteOf, Directory, Agrees;
    ghost var done := provider.log;
    assert Confirmed(done[0]);
    var issue, err := provider.ReadIssue(index);
    if issue.None? {
      return Failed(KnownFailure(true, err));
    }
    if provider.faithful && provider.remote == Wanted(intent, provider.seen[0]) {
      WantedSatisfies(intent, provider.seen[0], issue.value);
    }
    if EditSatisfied(intent, issue.value) {
      r := Respond(issue.value, true);
      return;
    }
    r := CorrectOnce(provider, index, intent, catalog, issue.value);
  }

  lemma FollowedFirst(intent: Intent, catalog: map<Bytes, int>, log: seq<Write>, seen: seq<Issue>)
    requires seen != [] && PlanOf(intent, seen[0], catalog).Some?
    requires OpsOf(log) == Ops(PlanOf(intent, seen[0], catalog).value)
    ensures Followed(intent, catalog, log, seen)
  {
    hide PlanOf, Ops;
  }

  lemma FollowedNothing(intent: Intent)
    ensures forall catalog, seen :: Followed(intent, catalog, [], seen)
  {
  }

  lemma FollowedPart(intent: Intent, catalog: map<Bytes, int>, log: seq<Write>, seen: seq<Issue>)
    requires seen != [] && PlanOf(intent, seen[0], catalog).Some?
    requires OpsOf(log) <= Ops(PlanOf(intent, seen[0], catalog).value)
    ensures Followed(intent, catalog, log, seen)
  {
    hide PlanOf, Ops;
  }

  lemma SomeOfAll(log: seq<Write>)
    ensures AllConfirmed(log) ==> (SomeConfirmed(log) <==> log != [])
  {
    assert AllConfirmed(log) && log != [] ==> Confirmed(log[0]);
  }

  lemma FollowedSecond(intent: Intent, catalog: map<Bytes, int>, done: seq<Write>, log: seq<Write>, seen: seq<Issue>)
    requires |seen| >= 2 && PlanOf(intent, seen[0], catalog).Some? && PlanOf(intent, seen[1], catalog).Some?
    requires OpsOf(done) == Ops(PlanOf(intent, seen[0], catalog).value) && done <= log
    requires OpsOf(log[|done|..]) <= Ops(PlanOf(intent, seen[1], catalog).value)
    ensures Followed(intent, catalog, log, seen)
  {
    hide PlanOf, Ops;
    assert OpsOf(log) == OpsOf(done) + OpsOf(log[|done|..]);
  }

  lemma FollowedExtends(intent: Intent, catalog: map<Bytes, int>, log: seq<Write>, seen: seq<Issue>, more: seq<Issue>)
    requires Followed(intent, catalog, log, seen) && seen <= more
    ensures Followed(intent, catalog, log, more)
  {
    hide PlanOf, Ops;
  }

  /** The one corrective attempt. */
  method CorrectOnce(provider: Provider, index: int, intent: Intent, catalog: map<Bytes, int>, issue: Issue)
    returns (r: EditResult)
    requires ValidIntent(intent) && Covers(intent, catalog) && Normalized(issue)
    requires |provider.seen| == 2 && provider.seen[1] == issue && PlanOf(intent, provider.seen[0], catalog).Some?
    requires provider.log != [] && AllConfirmed(provider.log)
    requires OpsOf(provider.log) == Ops(PlanOf(intent, provider.seen[0], catalog).value)
    requires Addressed(provider.log, index, provider.repository)
    modifies provider
    ensures Truthful(intent, r, provider.log, provider.seen)
    ensures r.Edited? ==> LastRead(provider.readLog, provider.repository) == Some(r.issue)
    ensures Addressed(provider.log, index, provider.repository)
    ensures Followed(intent, catalog, provider.log, provider.seen)
    ensures old(provider.seen) <= provider.seen
    ensures provider.Undisturbed() ==> old(provider.Undisturbed())
  {
    hide PlanOf, Ops, EditSatisfied, Normalized, Covers, LastUnconfirmed, Directory, Agrees, OpsOf, Followed, Confirmed;
    FollowedFirst(intent, catalog, provider.log, provider.seen);
    ghost var done := provider.log;
    assert Confirmed(done[0]);
    PlanExists(intent, issue, catalog);
    var corrective := PlanIssueEdit(intent, issue, catalog);
    if corrective.None? {
      return Failed(KnownFailure(true, ProviderFailure));
    }
    var failure, facts := provider.ExecutePlan(corrective.value, index, true);
    LogSplit(done, provider.log);
    FollowedSecond(intent, catalog, done, provider.log, provider.seen);
    ghost var seen := provider.seen;
    assert provider.log[0] == done[0] && SomeConfirmed(provider.log);
    if failure.Some? {
      r := ResolveFailure(provider, index, intent, facts, failure.value);
      FollowedExtends(intent, catalog, provider.log, seen, provider.seen);
      return;
    }
    var final, err := provider.ReadIssue(index);
    FollowedExtends(intent, catalog, provider.log, seen, provider.seen);
    if final.None? {
      return Failed(KnownFailure(facts, err));
    }
    if !EditSatisfied(intent, final.value) {
      return Failed(KnownFailure(facts, FailedPrecondition));
    }
    r := Respond(final.value, true);
  }

  /** A plan made from faithful answers only adds labels the repository has. */
  lemma PlanKnown(intent: Intent, issue: Issue, catalog: map<Bytes, int>, directory: map<int, Bytes>)
    requires PlanOf(intent, issue, catalog).Some? && Agrees(catalog, directory)
    ensures AllIDsKnown(PlanOf(intent, issue, catalog).value, directory)
  {
    var plan := PlanOf(intent, issue, catalog).value;
    var add := if intent.labelMode == Add then ToSet(intent.labels) - ToSet(issue.labels) else {};
    forall i | 0 <= i < |plan.addLabelIDs|
      ensures plan.addLabelIDs[i] in directory
    {
      var name := Sort(add)[i];
      assert name in ToSet(Sort(add)) && Lookup(catalog, name) == plan.addLabelIDs[i];
    }
  }

  /** issueEdit. Every outcome tells the truth, whatever the provider does. And against a provider that answers
      faithfully throughout, with a live context, the edit is made if and only if it is possible: the issue becomes
      exactly the wanted one, and otherwise nothing is written. */
  method EditIssue(provider: Provider, index: int, intent: Intent)
    returns (r: EditResult, ghost catalog: map<Bytes, int>)
    requires ValidIntent(intent) && provider.log == [] && provider.seen == []
    modifies provider
    ensures Truthful(intent, r, provider.log, provider.seen)
    ensures r.Edited? ==> LastRead(provider.readLog, provider.repository) == Some(r.issue)
    ensures Addressed(provider.log, index, provider.repository)
    ensures Followed(intent, catalog, provider.log, provider.seen)
    ensures provider.Undisturbed() ==> provider.seen != [] && RemoteOf(provider.seen[0]) == old(provider.remote)
    ensures provider.Undisturbed() && provider.Possible(intent, provider.seen[0]) ==>
              provider.remote == Wanted(intent, provider.seen[0]) && Achieved(r, provider.remote)
    ensures provider.Undisturbed() && !provider.Possible(intent, provider.seen[0]) ==>
              r == Failed(FailedPrecondition) && provider.log == [] && provider.remote == old(provider.remote)
  {
    hide PlanOf, Ops, EditSatisfied, Normalized, Covers, Empty, Wanted, RemoteOf, Directory, Agrees, ApplyAll;
    hide Confirmed, OpsOf, SomeConfirmed, Followed, LastRead, NeededLabelNames;
    FollowedNothing(intent);
    catalog := map[];
    var issue, err := provider.ReadIssue(index);
    if issue.None? {
      return Failed(err), catalog;
    }
    var labels;
    labels, err := provider.CollectCatalog(intent, issue.value);
    if labels.None? {
      return Failed(err), catalog;
    }
    catalog := labels.value;
    PlanExists(intent, issue.value, labels.value);
    PlanEmptyIff(intent, issue.value, labels.value);
    var plan := PlanIssueEdit(intent, issue.value, labels.value);
    if plan.None? {
      return Failed(ProviderFailure), catalog;
    }
    EmptyOps(plan.value);
    if provider.faithful {
      PlanCorrect(intent, issue.value, labels.value, Directory(provider.labels));
      PlanKnown(intent, issue.value, labels.value, Directory(provider.labels));
      NoOps(provider.remote, Directory(provider.labels));
    }
    if Empty(plan.value) {
      r := Respond(issue.value, false);
      return;
    }
    var failure, facts := provider.ExecutePlan(plan.value, index, false);
    assert provider.log[0..] == provider.log;
    SomeOfAll(provider.log);
    FollowedPart(intent, catalog, provider.log, provider.seen);
    ghost var seen := provider.seen;
    if failure.Some? {
      r := ResolveFailure(provider, index, intent, facts, failure.value);
      FollowedExtends(intent, catalog, provider.log, seen, provider.seen);
      return;
    }
    r := Correct(provider, index, intent, labels.value);
  }

  lemma NoOps(r: Remote, directory: map<int, Bytes>)
    ensures ApplyAll(r, [], directory) == r
  {
  }

  lemma EmptyOps(plan: Plan)
    ensures Empty(plan) <==> Ops(plan) == []
  {
  }

  lemma LogSplit(done: seq<Write>, log: seq<Write>)
    requires done <= log && AllConfirmed(done)
    ensures log == done + log[|done|..] && OpsOf(log) == OpsOf(done) + OpsOf(log[|done|..])
    ensures AllConfirmed(log[|done|..]) ==> AllConfirmed(log)
    ensures LastUnconfirmed(log[|done|..]) ==> LastUnconfirmed(log)
  {
    var made := log[|done|..];
    if LastUnconfirmed(made) {
      assert log[|log| - 1] == made[|made| - 1];
      forall i | 0 <= i < |log| - 1
        ensures Confirmed(log[i])
      {
        if i >= |done| {
          assert made[..|made| - 1][i - |done|] == log[i];
        }
      }
    }
  }
}
