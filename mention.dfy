/** The mention that selects a document directory: the first match of the
    regular expression `@(\S+)\s` in the submitted text, whose group is
    the directory name. */
module Mention {
  import opened Protocol
  import opened Whitespace

  /** `@(\S+)\s` matches at position `q` with a group of length `k`. */
  predicate MatchesAt(s: string, q: nat, k: nat) {
    1 <= k && q + k + 1 < |s| && s[q] == '@' && NoSpace(s[q + 1..q + 1 + k]) && IsSpace(s[q + 1 + k])
  }

  /** The group of the first match at or after position `q`, found the way
      the backtracking matcher finds it: `\S+` first takes the whole run of
      non-whitespace, and only the whole run can be followed by `\s`. */
  function FindMentionFrom(s: string, q: nat): (r: Option<string>)
    requires q <= |s|
    ensures r.Some? ==> |r.value| >= 1 && NoSpace(r.value)
    decreases |s| - q
  {
    if q == |s| then None
    else if s[q] == '@' && q + 1 < |s| && q + 1 < RunEnd(s, q + 1) < |s| then Some(s[q + 1..RunEnd(s, q + 1)])
    else FindMentionFrom(s, q + 1)
  }

  /** `message.match(/@(\S+)\s/)`, reduced to its group: a found name is
      non-empty and holds no whitespace. */
  function FindMention(s: string): (r: Option<string>)
    ensures r.Some? ==> |r.value| >= 1 && NoSpace(r.value)
  {
    FindMentionFrom(s, 0)
  }

  /** At one position the expression matches at most one way, and it
      matches exactly when the scan's test succeeds. */
  lemma MatchAtPosition(s: string, q: nat, k: nat)
    requires MatchesAt(s, q, k)
    ensures RunEnd(s, q + 1) == q + 1 + k
  {
    RunEndAt(s, q + 1, q + 1 + k);
  }

  lemma {:induction false} FindMentionFromSound(s: string, q0: nat) returns (q: nat, k: nat)
    requires q0 <= |s| && FindMentionFrom(s, q0).Some?
    ensures q0 <= q && MatchesAt(s, q, k)
    ensures FindMentionFrom(s, q0).value == s[q + 1..q + 1 + k]
    ensures forall p, j :: q0 <= p < q ==> !MatchesAt(s, p, j)
    decreases |s| - q0
  {
    if s[q0] == '@' && q0 + 1 < |s| && q0 + 1 < RunEnd(s, q0 + 1) < |s| {
      q, k := q0, RunEnd(s, q0 + 1) - (q0 + 1);
    } else {
      forall j | MatchesAt(s, q0, j) ensures false {
        MatchAtPosition(s, q0, j);
      }
      q, k := FindMentionFromSound(s, q0 + 1);
    }
  }

  lemma {:induction false} FindMentionFromComplete(s: string, q0: nat, q: nat, k: nat)
    requires q0 <= q && MatchesAt(s, q, k)
    ensures FindMentionFrom(s, q0).Some?
    decreases q - q0
  {
    if q0 < q {
      if !(s[q0] == '@' && q0 + 1 < |s| && q0 + 1 < RunEnd(s, q0 + 1) < |s|) {
        FindMentionFromComplete(s, q0 + 1, q, k);
      }
    } else {
      MatchAtPosition(s, q, k);
    }
  }

  /** A directory name is found exactly when the expression matches
      somewhere; it is then the group of the leftmost match: a non-empty
      run of non-whitespace that follows an `@` and is followed by
      whitespace. */
  lemma FindMentionSpec(s: string)
    ensures FindMention(s).None? <==> forall q, k :: !MatchesAt(s, q, k)
    ensures FindMention(s).Some? ==>
      exists q, k :: MatchesAt(s, q, k) && FindMention(s).value == s[q + 1..q + 1 + k] &&
        forall p, j :: p < q ==> !MatchesAt(s, p, j)
  {
    if FindMention(s).Some? {
      var q, k := FindMentionFromSound(s, 0);
    } else {
      forall q, k | MatchesAt(s, q, k) ensures false {
        FindMentionFromComplete(s, 0, q, k);
      }
    }
  }

  /** Text without whitespace never selects a directory. */
  lemma NoWhitespaceNoMention(s: string)
    requires NoSpace(s)
    ensures FindMention(s) == None
  {
    if FindMention(s).Some? {
      var q, k := FindMentionFromSound(s, 0);
    }
  }

  /** A mention at the very end of the text, with no whitespace after it,
      changes nothing: the name selected is the one selected without it. */
  lemma TrailingMentionIgnored(prefix: string, name: string)
    requires NoSpace(name)
    ensures FindMention(prefix + "@" + name) == FindMention(prefix)
  {
    ScanAgrees(prefix, name, 0);
  }

  lemma {:induction false} ScanAgrees(prefix: string, name: string, q0: nat)
    requires NoSpace(name) && q0 <= |prefix|
    ensures FindMentionFrom(prefix + "@" + name, q0) == FindMentionFrom(prefix, q0)
    decreases |prefix| - q0
  {
    var s := prefix + "@" + name;
    assert forall i :: |prefix| <= i < |s| ==> !IsSpace(s[i]) by {
      forall i | |prefix| <= i < |s| ensures !IsSpace(s[i]) {
        if i > |prefix| {
          assert s[i] == name[i - |prefix| - 1];
        }
      }
    }
    if q0 == |prefix| {
      if FindMentionFrom(s, q0).Some? {
        var q, k := FindMentionFromSound(s, q0);
      }
    } else {
      var scanS := s[q0] == '@' && q0 + 1 < |s| && q0 + 1 < RunEnd(s, q0 + 1) < |s|;
      var scanP := prefix[q0] == '@' && q0 + 1 < |prefix| && q0 + 1 < RunEnd(prefix, q0 + 1) < |prefix|;
      if scanS {
        var k := RunEnd(s, q0 + 1) - (q0 + 1);
        assert q0 + 1 + k < |prefix|;
        assert s[q0 + 1..q0 + 1 + k] == prefix[q0 + 1..q0 + 1 + k];
        assert MatchesAt(prefix, q0, k);
        MatchAtPosition(prefix, q0, k);
      } else if scanP {
        var k := RunEnd(prefix, q0 + 1) - (q0 + 1);
        assert s[q0 + 1..q0 + 1 + k] == prefix[q0 + 1..q0 + 1 + k];
        assert MatchesAt(s, q0, k);
        MatchAtPosition(s, q0, k);
        assert false;
      } else {
        ScanAgrees(prefix, name, q0 + 1);
      }
    }
  }
}
