/** Object IDs, the three ref grammars of the broker, and the push policy. */
module PushPolicy {
  import opened Text

  datatype Update = Update(oldOID: Bytes, newOID: Bytes, ref: Bytes)

  datatype Policy = Policy(denyRefs: seq<Bytes>, denyDeletes: bool, maxRefUpdates: int)

  /** Why ValidatePush refuses. */
  datatype Denial = TooManyUpdates | InvalidRef | InvalidObjectID | DeniedRef | DeniedDeletion

  // ----- object IDs -----

  predicate HexByte(c: char) {
    '0' <= c <= '9' || 'a' <= c <= 'f' || 'A' <= c <= 'F'
  }

  predicate ValidObjectID(id: Bytes) {
    (|id| == 40 || |id| == 64) && forall i :: 0 <= i < |id| ==> HexByte(id[i])
  }

  predicate ZeroObjectID(id: Bytes) {
    id != "" && forall i :: 0 <= i < |id| ==> id[i] == '0'
  }

  // ----- refs -----

  predicate ForbiddenPunctuation(c: char) {
    c in "~^:?*[\\"
  }

  /** What all three grammars forbid: the shapes git-check-ref-format(1) rules out. */
  predicate RefShape(ref: Bytes) {
    && "refs/" <= ref
    && !Contains(ref, "..") && !Contains(ref, "//") && !Contains(ref, "@{")
    && !HasSuffix(ref, ".")
  }

  predicate ComponentOk(part: Bytes) {
    part != "" && part[0] != '.' && !HasSuffix(part, ".lock")
  }

  /** internal/gitproto: the refs a push may name. */
  predicate PushableRef(ref: Bytes) {
    && ValidUtf8(ref) && RefShape(ref)
    && (forall i :: 0 <= i < |ref| ==> ref[i] > ' ' && ref[i] != '\U{7F}' && !ForbiddenPunctuation(ref[i]))
    && ref != "@"
    && forall i :: 0 <= i < |Split(ref, '/')| ==> ComponentOk(Split(ref, '/')[i])
  }

  predicate PolicyCharacters(ref: Bytes) {
    forall i :: 0 <= i < |ref| ==> ref[i] >= ' ' && ref[i] != '\U{7F}' && ref[i] != ' ' && !ForbiddenPunctuation(ref[i])
  }

  /** internal/policy: the refs ValidatePush takes for well formed. */
  predicate PolicyRef(ref: Bytes) {
    && PolicyCharacters(ref) && RefShape(ref)
    && |ref| != |"refs/"| && !HasSuffix(ref, "/")
    && forall i :: 0 <= i < |Split(ref, '/')| ==> ComponentOk(Split(ref, '/')[i])
  }

  /** internal/config: the refs an operator may put on the deny list. */
  predicate DeniableRef(ref: Bytes) {
    && PolicyCharacters(ref) && RefShape(ref)
    && |ref| != |"refs/"| && !HasSuffix(ref, "/") && !HasSuffix(ref, ".lock")
    && forall i :: 0 <= i < |Split(ref, '/')| ==> Split(ref, '/')[i] != "" && Split(ref, '/')[i][0] != '.'
  }

  /** A suffix without separators lies inside the last component. */
  lemma {:induction false} SuffixInLastComponent(s: Bytes, sep: char, suffix: Bytes)
    requires HasSuffix(s, suffix) && sep !in suffix
    ensures var parts := Split(s, sep); HasSuffix(parts[|parts| - 1], suffix)
    decreases |s|
  {
    var n := IndexOf(s, sep);
    if n < |s| {
      SuffixAfter(s, n, suffix);
      SuffixInLastComponent(s[n + 1..], sep, suffix);
    }
  }

  lemma TailHas(s: Bytes, n: nat, start: nat)
    requires n < |s| && start <= |s|
    ensures n >= start ==> s[n] in s[start..]
  {
    if n >= start {
      assert s[start..][n - start] == s[n];
    }
  }

  lemma SuffixAfter(s: Bytes, n: nat, suffix: Bytes)
    requires n < |s| && HasSuffix(s, suffix) && s[n] !in suffix
    ensures HasSuffix(s[n + 1..], suffix)
  {
    var start := |s| - |suffix|;
    TailHas(s, n, start);
    assert s[n + 1..][|s| - n - 1 - |suffix|..] == s[start..];
  }

  /** A ref whose components are all sound ends in neither a slash nor `.lock`. */
  lemma SoundComponentsEnd(ref: Bytes)
    requires forall i :: 0 <= i < |Split(ref, '/')| ==> ComponentOk(Split(ref, '/')[i])
    ensures !HasSuffix(ref, "/") && !HasSuffix(ref, ".lock")
  {
    var parts := Split(ref, '/');
    assert ComponentOk(parts[|parts| - 1]);
    if HasSuffix(ref, "/") {
      EmptyLastComponent(ref, '/');
    }
    if HasSuffix(ref, ".lock") {
      SuffixInLastComponent(ref, '/', ".lock");
    }
  }

  /** Every ref the parser lets through is well formed for the policy, and can be put on the deny list. */
  lemma GrammarsAgree(ref: Bytes)
    requires PushableRef(ref)
    ensures PolicyRef(ref) && DeniableRef(ref)
    ensures |ref| >= 6
  {
    SoundComponentsEnd(ref);
    assert |ref| == 5 ==> ref == "refs/" && HasSuffix(ref, "/");
    assert PolicyCharacters(ref);
    assert forall i :: 0 <= i < |Split(ref, '/')| ==> ComponentOk(Split(ref, '/')[i]);
  }

  lemma {:induction false} EmptyLastComponent(s: Bytes, sep: char)
    requires s != "" && s[|s| - 1] == sep
    ensures var parts := Split(s, sep); parts[|parts| - 1] == ""
  {
    hide IndexOf, Join;
    var n := IndexOf(s, sep);
    if n < |s| - 1 {
      EmptyLastComponent(s[n + 1..], sep);
    }
  }

  // ----- policy -----

  /** The first reason to refuse one update, checked in this order. */
  function UpdateDenial(policy: Policy, update: Update): Option<Denial> {
    if !PolicyRef(update.ref) then Some(InvalidRef)
    else if !ValidObjectID(update.oldOID) || !ValidObjectID(update.newOID) || |update.oldOID| != |update.newOID| then
      Some(InvalidObjectID)
    else if update.ref in policy.denyRefs then Some(DeniedRef)
    else if policy.denyDeletes && ZeroObjectID(update.newOID) then Some(DeniedDeletion)
    else None
  }

  function FirstDenial(policy: Policy, updates: seq<Update>): Option<Denial> {
    if updates == [] then None
    else
      var denial := UpdateDenial(policy, updates[0]);
      if denial.Some? then denial else FirstDenial(policy, updates[1..])
  }

  function PushDenial(policy: Policy, updates: seq<Update>): Option<Denial> {
    if |updates| > policy.maxRefUpdates then Some(TooManyUpdates) else FirstDenial(policy, updates)
  }

  method ValidatePush(policy: Policy, updates: seq<Update>) returns (denial: Option<Denial>)
    ensures denial == PushDenial(policy, updates)
  {
    if |updates| > policy.maxRefUpdates {
      return Some(TooManyUpdates);
    }
    var denied: set<Bytes> := {};
    var i := 0;
    while i < |policy.denyRefs|
      invariant 0 <= i <= |policy.denyRefs|
      invariant denied == set ref | ref in policy.denyRefs[..i]
    {
      denied := denied + {policy.denyRefs[i]};
      i := i + 1;
    }
    assert policy.denyRefs[..i] == policy.denyRefs;
    i := 0;
    while i < |updates|
      invariant 0 <= i <= |updates|
      invariant FirstDenial(policy, updates) == FirstDenial(policy, updates[i..])
    {
      var update := updates[i];
      if !PolicyRef(update.ref) {
        return Some(InvalidRef);
      }
      if !ValidObjectID(update.oldOID) || !ValidObjectID(update.newOID) || |update.oldOID| != |update.newOID| {
        return Some(InvalidObjectID);
      }
      if update.ref in denied {
        return Some(DeniedRef);
      }
      if policy.denyDeletes && ZeroObjectID(update.newOID) {
        return Some(DeniedDeletion);
      }
      i := i + 1;
    }
    return None;
  }

  /** What an accepted push looks like, stated on the whole list. */
  predicate PushAllowed(policy: Policy, updates: seq<Update>) {
    && |updates| <= policy.maxRefUpdates
    && forall u :: u in updates ==>
         && PolicyRef(u.ref) && ValidObjectID(u.oldOID) && ValidObjectID(u.newOID) && |u.oldOID| == |u.newOID|
         && u.ref !in policy.denyRefs
         && !(policy.denyDeletes && ZeroObjectID(u.newOID))
  }

  lemma {:induction false} PushDenialIff(policy: Policy, updates: seq<Update>)
    ensures FirstDenial(policy, updates).None? <==> forall u :: u in updates ==> UpdateDenial(policy, u).None?
    ensures PushDenial(policy, updates).None? <==> PushAllowed(policy, updates)
  {
    hide PolicyRef, ValidObjectID, ZeroObjectID;
    if updates != [] {
      PushDenialIff(policy, updates[1..]);
      assert updates == [updates[0]] + updates[1..];
    }
    assert forall u :: u in updates ==>
      (UpdateDenial(policy, u).None? <==>
         && PolicyRef(u.ref) && ValidObjectID(u.oldOID) && ValidObjectID(u.newOID) && |u.oldOID| == |u.newOID|
         && u.ref !in policy.denyRefs && !(policy.denyDeletes && ZeroObjectID(u.newOID)));
  }

  /** An update the structural parser produces. */
  predicate ParsedUpdate(u: Update, width: nat) {
    && ValidObjectID(u.oldOID) && ValidObjectID(u.newOID) && |u.oldOID| == width && |u.newOID| == width
    && PushableRef(u.ref)
  }

  /** Policy never calls a parsed update malformed: it refuses for number, a denied ref or a denied deletion only. */
  lemma {:induction false} ParsedNeverMalformed(policy: Policy, updates: seq<Update>, width: nat)
    requires forall u :: u in updates ==> ParsedUpdate(u, width)
    ensures PushDenial(policy, updates) in {None, Some(TooManyUpdates), Some(DeniedRef), Some(DeniedDeletion)}
    ensures FirstDenial(policy, updates) in {None, Some(DeniedRef), Some(DeniedDeletion)}
  {
    hide PolicyRef, ValidObjectID, ZeroObjectID, PushableRef;
    if updates != [] {
      assert ParsedUpdate(updates[0], width);
      GrammarsAgree(updates[0].ref);
      ParsedNeverMalformed(policy, updates[1..], width);
    }
  }
}
