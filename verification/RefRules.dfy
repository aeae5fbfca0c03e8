/** The ref and object ID rules of the push policy, restated position by position after git-check-ref-format(1), and
    what they mean for deletions. */
module RefRules {
  import opened Text
  import opened PushPolicy

  // ----- object ids -----

  lemma ObjectIDIff(id: Bytes)
    ensures ValidObjectID(id) <==>
            |id| in {40, 64} && forall i :: 0 <= i < |id| ==> id[i] in "0123456789abcdefABCDEF"
  {
    forall i | 0 <= i < |id|
      ensures HexByte(id[i]) <==> id[i] in "0123456789abcdefABCDEF"
    {
      HexDigits(id[i]);
    }
  }

  lemma HexDigits(c: char)
    ensures HexByte(c) <==> c in "0123456789abcdefABCDEF"
  {
    var digits := "0123456789abcdefABCDEF";
    if '0' <= c <= '9' {
      assert digits[c as int - '0' as int] == c;
    } else if 'a' <= c <= 'f' {
      assert digits[10 + (c as int - 'a' as int)] == c;
    } else if 'A' <= c <= 'F' {
      assert digits[16 + (c as int - 'A' as int)] == c;
    }
  }

  /** The null id, which stands for no object. */
  function NullID(width: nat): Bytes {
    seq(width, _ => '0')
  }

  lemma NullIff(id: Bytes)
    requires ValidObjectID(id)
    ensures ZeroObjectID(id) <==> id == NullID(40) || id == NullID(64)
  {
    if ZeroObjectID(id) {
      assert id == NullID(|id|);
    }
  }

  /** The null ids are valid ids. */
  lemma NullIsValid(width: nat)
    requires width == 40 || width == 64
    ensures ValidObjectID(NullID(width)) && ZeroObjectID(NullID(width))
  {
  }

  /** An otherwise valid update off the deny list is denied exactly when it puts the null id where deletions are
      denied. */
  lemma DeletionDeniedIff(policy: Policy, u: Update)
    requires PolicyRef(u.ref) && u.ref !in policy.denyRefs
    requires ValidObjectID(u.oldOID) && ValidObjectID(u.newOID) && |u.oldOID| == |u.newOID|
    requires policy.maxRefUpdates >= 1
    ensures PushDenial(policy, [u]) ==
            if policy.denyDeletes && u.newOID in {NullID(40), NullID(64)} then Some(DeniedDeletion) else None
  {
    NullIff(u.newOID);
    assert FirstDenial(policy, [u]) == if UpdateDenial(policy, u).Some? then UpdateDenial(policy, u)
        else FirstDenial(policy, [u][1..]);
  }

  /** No push that is allowed where deletions are denied deletes anything. */
  lemma AllowedKeepsRefs(policy: Policy, updates: seq<Update>, u: Update)
    requires PushAllowed(policy, updates) && policy.denyDeletes && u in updates
    ensures u.newOID != NullID(40) && u.newOID != NullID(64)
  {
    NullIsValid(40);
    NullIsValid(64);
  }

  // ----- positions -----

  lemma {:induction false} ContainsIff(s: Bytes, sub: Bytes)
    requires |sub| == 2
    ensures Contains(s, sub) <==> exists i :: 0 <= i < |s| - 1 && s[i] == sub[0] && s[i + 1] == sub[1]
  {
    if s != "" {
      ContainsIff(s[1..], sub);
      if sub <= s {
        assert s[0] == sub[0] && s[0 + 1] == sub[1];
      }
      if i :| 0 <= i < |s| - 1 && s[i] == sub[0] && s[i + 1] == sub[1] {
        if i == 0 {
          assert sub == s[..2];
        } else {
          assert s[1..][i - 1] == sub[0] && s[1..][i - 1 + 1] == sub[1];
        }
      }
      if i :| 0 <= i < |s[1..]| - 1 && s[1..][i] == sub[0] && s[1..][i + 1] == sub[1] {
        assert s[i + 1] == sub[0] && s[i + 1 + 1] == sub[1];
      }
    }
  }

  /** ".lock" stands at i, at the end or before a slash. */
  predicate LockAt(s: Bytes, i: nat) {
    i + 5 <= |s| && s[i..i + 5] == ".lock" && (i + 5 == |s| || s[i + 5] == '/')
  }

  /** Slash-separated components, none empty, none with a dot in front, none ending in ".lock". */
  ghost predicate GoodPositions(s: Bytes) {
    && s != "" && s[0] != '/' && s[0] != '.' && s[|s| - 1] != '/'
    && (forall i :: 0 <= i < |s| - 1 && s[i] == '/' ==> s[i + 1] != '/' && s[i + 1] != '.')
    && (forall i: nat :: !LockAt(s, i))
  }

  predicate GoodComponents(s: Bytes) {
    forall i :: 0 <= i < |Split(s, '/')| ==> ComponentOk(Split(s, '/')[i])
  }

  lemma {:induction false} ComponentsIff(s: Bytes)
    ensures GoodComponents(s) <==> GoodPositions(s)
    decreases |s|
  {
    var n := IndexOf(s, '/');
    if n == |s| {
      assert Split(s, '/') == [s];
      LastComponent(s);
    } else {
      var first, rest := s[..n], s[n + 1..];
      var parts := Split(rest, '/');
      assert Split(s, '/') == [first] + parts;
      ComponentsIff(rest);
      assert GoodComponents(s) <==> ComponentOk(first) && GoodComponents(rest) by {
        assert forall i :: 0 <= i < |parts| ==> ([first] + parts)[i + 1] == parts[i];
        assert ([first] + parts)[0] == first;
        if ComponentOk(first) && GoodComponents(rest) {
          forall i | 0 <= i < |[first] + parts|
            ensures ComponentOk(([first] + parts)[i])
          {
            assert i > 0 ==> ([first] + parts)[i] == parts[i - 1];
          }
        }
      }
      FirstComponent(s, n);
    }
  }

  /** A component without slashes. */
  lemma LastComponent(s: Bytes)
    requires '/' !in s
    ensures ComponentOk(s) <==> GoodPositions(s)
  {
    if |s| >= 5 && HasSuffix(s, ".lock") {
      assert LockAt(s, |s| - 5);
    }
    forall i: nat | LockAt(s, i)
      ensures HasSuffix(s, ".lock")
    {
      assert i + 5 == |s|;
    }
  }

  lemma FirstComponent(s: Bytes, n: nat)
    requires n < |s| && s[n] == '/' && '/' !in s[..n]
    ensures GoodPositions(s) <==> ComponentOk(s[..n]) && GoodPositions(s[n + 1..])
  {
    var first, rest := s[..n], s[n + 1..];
    forall i: nat
      ensures LockAt(s, n + 1 + i) <==> LockAt(rest, i)
    {
      if n + 1 + i + 5 <= |s| {
        assert s[n + 1 + i..n + 1 + i + 5] == rest[i..i + 5];
      }
    }
    forall i: nat | i <= n
      ensures LockAt(s, i) <==> i + 5 == n && HasSuffix(first, ".lock")
    {
      LockInFirst(s, n, i);
    }
    assert HasSuffix(first, ".lock") ==> LockAt(s, n - 5);
    assert forall i :: 0 <= i < |rest| ==> rest[i] == s[n + 1 + i];
    assert forall i :: 0 <= i < n ==> first[i] == s[i] && s[i] != '/';
    assert GoodPositions(s) ==> rest != "";
    ShiftPairs(s, n);
    assert (forall i: nat :: !LockAt(s, i)) <==> !HasSuffix(first, ".lock") && (forall i: nat :: !LockAt(rest, i)) by {
      if !HasSuffix(first, ".lock") && forall i: nat :: !LockAt(rest, i) {
        forall i: nat
          ensures !LockAt(s, i)
        {
          if i > n {
            assert LockAt(s, n + 1 + (i - n - 1)) <==> LockAt(rest, i - n - 1);
          }
        }
      }
    }
  }

  lemma LockInFirst(s: Bytes, n: nat, i: nat)
    requires n < |s| && s[n] == '/' && '/' !in s[..n] && i <= n
    ensures LockAt(s, i) <==> i + 5 == n && HasSuffix(s[..n], ".lock")
  {
    assert forall k :: 0 <= k < n ==> s[..n][k] == s[k] && s[k] != '/';
    if LockAt(s, i) {
      assert forall k :: 0 <= k < 5 ==> s[i..i + 5][k] == s[i + k] && ".lock"[k] != '/';
      assert i + 5 == n;
      assert s[..n][i..] == s[i..i + 5];
    }
    if i + 5 == n && HasSuffix(s[..n], ".lock") {
      assert s[..n][i..] == s[i..i + 5];
    }
  }

  predicate NoBadPairs(s: Bytes) {
    forall i :: 0 <= i < |s| - 1 && s[i] == '/' ==> s[i + 1] != '/' && s[i + 1] != '.'
  }

  lemma ShiftPairs(s: Bytes, n: nat)
    requires n < |s| && s[n] == '/' && '/' !in s[..n]
    ensures NoBadPairs(s) <==>
            (n + 1 < |s| ==> s[n + 1] != '/' && s[n + 1] != '.') && NoBadPairs(s[n + 1..])
  {
    var rest := s[n + 1..];
    assert forall i :: 0 <= i < |rest| ==> rest[i] == s[n + 1 + i];
    assert forall i :: 0 <= i < n ==> s[i] == s[..n][i] && s[i] != '/';
    if (n + 1 < |s| ==> s[n + 1] != '/' && s[n + 1] != '.') && NoBadPairs(rest) {
      forall i | 0 <= i < |s| - 1 && s[i] == '/'
        ensures s[i + 1] != '/' && s[i + 1] != '.'
      {
        if i > n {
          assert rest[i - n - 1] == s[i] && rest[i - n - 1 + 1] == s[i + 1];
        }
      }
    }
    if NoBadPairs(s) {
      forall i | 0 <= i < |rest| - 1 && rest[i] == '/'
        ensures rest[i + 1] != '/' && rest[i + 1] != '.'
      {
        assert s[n + 1 + i] == '/' && s[n + 1 + i + 1] == rest[i + 1];
      }
    }
  }

  // ----- refs -----

  /** Neither white, nor a control byte, nor one of git's special characters. */
  predicate PlainByte(c: char) {
    c > ' ' && c != '\U{7F}' && c !in {'~', '^', ':', '?', '*', '[', '\\'}
  }

  lemma PlainIff(c: char)
    ensures ForbiddenPunctuation(c) <==> c in {'~', '^', ':', '?', '*', '[', '\\'}
  {
    var listed := "~^:?*[\\";
    assert listed == ['~', '^', ':', '?', '*', '[', '\\'];
    assert listed[0] == '~' && listed[1] == '^' && listed[2] == ':' && listed[3] == '?';
    assert listed[4] == '*' && listed[5] == '[' && listed[6] == '\\';
  }

  /** git-check-ref-format(1), position by position. */
  ghost predicate GoodRef(ref: Bytes) {
    && |ref| >= 5 && ref[..5] == "refs/"
    && (forall i :: 0 <= i < |ref| ==> PlainByte(ref[i]))
    && (forall i :: 0 <= i < |ref| - 1 ==>
          !(ref[i] == '.' && ref[i + 1] == '.') && !(ref[i] == '@' && ref[i + 1] == '{'))
    && ref[|ref| - 1] != '.'
    && GoodPositions(ref)
  }

  lemma ShapeIff(ref: Bytes)
    ensures RefShape(ref) <==>
            && |ref| >= 5 && ref[..5] == "refs/" && ref[|ref| - 1] != '.'
            && forall i :: 0 <= i < |ref| - 1 ==>
                 && !(ref[i] == '.' && ref[i + 1] == '.') && !(ref[i] == '/' && ref[i + 1] == '/')
                 && !(ref[i] == '@' && ref[i + 1] == '{')
  {
    ContainsIff(ref, "..");
    ContainsIff(ref, "//");
    ContainsIff(ref, "@{");
    assert "refs/" <= ref <==> |ref| >= 5 && ref[..5] == "refs/";
    assert |ref| >= 1 ==> (HasSuffix(ref, ".") <==> ref[|ref| - 1] == '.');
  }

  /** What policy takes for well formed is git-check-ref-format(1)'s shape; a push must be valid UTF-8 besides. */
  lemma PolicyRefIff(ref: Bytes)
    ensures PolicyRef(ref) <==> GoodRef(ref)
    ensures PushableRef(ref) <==> GoodRef(ref) && ValidUtf8(ref)
  {
    hide RefShape, GoodPositions, ComponentOk, ForbiddenPunctuation, ValidUtf8;
    ShapeIff(ref);
    ComponentsIff(ref);
    if ref != "" {
      EndsIff(ref);
    }
    forall i | 0 <= i < |ref|
      ensures ForbiddenPunctuation(ref[i]) <==> ref[i] in {'~', '^', ':', '?', '*', '[', '\\'}
    {
      PlainIff(ref[i]);
    }
    assert GoodComponents(ref) <==> GoodPositions(ref);
    if GoodPositions(ref) {
      PositionsPairs(ref);
    }
    assert ref == "@" ==> |ref| < 5;
  }

  lemma EndsIff(ref: Bytes)
    requires |ref| > 0
    ensures HasSuffix(ref, "/") <==> ref[|ref| - 1] == '/'
  {
  }

  lemma PositionsPairs(ref: Bytes)
    requires GoodPositions(ref)
    ensures ref[|ref| - 1] != '/' && forall i :: 0 <= i < |ref| - 1 ==> !(ref[i] == '/' && ref[i + 1] == '/')
  {
  }

  predicate NoInnerLock(ref: Bytes) {
    forall i :: 0 <= i < |Split(ref, '/')| ==> !HasSuffix(Split(ref, '/')[i], ".lock")
  }

  /** The deny list takes what policy takes, and besides it refs with an inner component that ends in ".lock". */
  lemma DeniableRefIff(ref: Bytes)
    ensures PolicyRef(ref) <==> DeniableRef(ref) && NoInnerLock(ref)
  {
    hide RefShape, PolicyCharacters, Split, HasSuffix, Join;
    var parts := Split(ref, '/');
    if PolicyRef(ref) {
      SoundComponentsEnd(ref);
      assert forall i :: 0 <= i < |parts| ==> ComponentOk(parts[i]);
    }
    if DeniableRef(ref) && NoInnerLock(ref) {
      assert forall i :: 0 <= i < |parts| ==> ComponentOk(parts[i]);
    }
  }

  /** No control byte, blank or special character can be put on the deny list. */
  lemma DeniableIsPlain(ref: Bytes, i: nat)
    requires DeniableRef(ref) && i < |ref|
    ensures PlainByte(ref[i])
  {
    hide RefShape, Split, HasSuffix;
    PlainIff(ref[i]);
  }
}
