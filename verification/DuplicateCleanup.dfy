/** Removing duplicated user messages (scripts/cleanup-duplicate-user-messages.js).

    A record is a parsed message file. A missing session id is the empty string, and a time that does not parse
    is None. Files whose backup or deletion fails are arguments of the clean-up.
  */
module DuplicateCleanup {
  import opened Text

  datatype Directory = Hot | Cold

  datatype Record = Record(directory: Directory, filename: string, role: string, content: string, sessionId: string,
                           time: Option<int>)

  /** Two copies of one prompt. */
  predicate Duplicates(a: Record, b: Record, windowMs: nat) {
    && a.role == "user" && b.role == "user" && a.content == b.content && a.sessionId == b.sessionId
    && a.time.Some? && b.time.Some?
    && a.time.value - b.time.value <= windowMs && b.time.value - a.time.value <= windowMs
  }

  function Matches(head: Record, rs: seq<Record>, windowMs: nat): seq<Record> {
    if rs == [] then []
    else (if Duplicates(head, rs[0], windowMs) then [rs[0]] else []) + Matches(head, rs[1..], windowMs)
  }

  function Others(head: Record, rs: seq<Record>, windowMs: nat): (others: seq<Record>)
    ensures |others| <= |rs|
  {
    if rs == [] then []
    else (if Duplicates(head, rs[0], windowMs) then [] else [rs[0]]) + Others(head, rs[1..], windowMs)
  }

  /** The first record takes all its duplicates into its cluster; the rest is clustered in the same way. */
  function Clusters(rs: seq<Record>, windowMs: nat): seq<seq<Record>>
    decreases |rs|
  {
    if rs == [] then []
    else
      (if Matches(rs[0], rs[1..], windowMs) != [] then [[rs[0]] + Matches(rs[0], rs[1..], windowMs)] else [])
      + Clusters(Others(rs[0], rs[1..], windowMs), windowMs)
  }

  /** The order of file names. */
  predicate Before(a: string, b: string) {
    b != "" && (a == "" || a[0] < b[0] || (a[0] == b[0] && Before(a[1..], b[1..])))
  }

  /** The first of the records whose name comes before all others: the one that is kept. */
  function Earliest(cluster: seq<Record>): Record
    requires cluster != []
  {
    if |cluster| == 1 then cluster[0]
    else
      var e, last := Earliest(cluster[..|cluster| - 1]), cluster[|cluster| - 1];
      if Before(last.filename, e.filename) then last else e
  }

  function Extras(cluster: seq<Record>): set<Record>
    requires cluster != []
  {
    (set r | r in cluster) - {Earliest(cluster)}
  }

  function Removed(clusters: seq<seq<Record>>): set<Record> {
    if clusters == [] then {}
    else (if clusters[0] != [] then Extras(clusters[0]) else {}) + Removed(clusters[1..])
  }

  function Without(rs: seq<Record>, gone: set<Record>): seq<Record> {
    if rs == [] then [] else (if rs[0] in gone then [] else [rs[0]]) + Without(rs[1..], gone)
  }

  /** What is left when every deletion succeeds. */
  function Cleaned(rs: seq<Record>, windowMs: nat): seq<Record> {
    Without(rs, Removed(Clusters(rs, windowMs)))
  }

  predicate SortedByName(rs: seq<Record>) {
    forall i, j :: 0 <= i < j < |rs| ==> Before(rs[i].filename, rs[j].filename)
  }

  // ---------------------------------------------------------------- what should be kept

  predicate HasDuplicate(kept: seq<Record>, r: Record, windowMs: nat) {
    exists i :: 0 <= i < |kept| && Duplicates(kept[i], r, windowMs)
  }

  /** One pass: a record is kept unless it duplicates one kept before. */
  function KeptAfter(kept: seq<Record>, rs: seq<Record>, windowMs: nat): seq<Record>
    decreases |rs|
  {
    if rs == [] then kept
    else KeptAfter(if HasDuplicate(kept, rs[0], windowMs) then kept else kept + [rs[0]], rs[1..], windowMs)
  }

  function Kept(rs: seq<Record>, windowMs: nat): seq<Record> {
    KeptAfter([], rs, windowMs)
  }

  // ---------------------------------------------------------------- the one pass and the clusters agree

  lemma {:induction false} KeptStays(kept: seq<Record>, rs: seq<Record>, windowMs: nat)
    ensures kept <= KeptAfter(kept, rs, windowMs)
    decreases |rs|
  {
    if rs != [] {
      KeptStays(if HasDuplicate(kept, rs[0], windowMs) then kept else kept + [rs[0]], rs[1..], windowMs);
    }
  }

  lemma {:induction false} OthersAre(head: Record, rs: seq<Record>, windowMs: nat)
    ensures forall i :: 0 <= i < |Others(head, rs, windowMs)| ==>
              Others(head, rs, windowMs)[i] in rs && !Duplicates(head, Others(head, rs, windowMs)[i], windowMs)
  {
    if rs != [] {
      OthersAre(head, rs[1..], windowMs);
    }
  }

  lemma {:induction false} MatchesAre(head: Record, rs: seq<Record>, windowMs: nat)
    ensures forall r :: r in Matches(head, rs, windowMs) <==> r in rs && Duplicates(head, r, windowMs)
  {
    if rs != [] {
      MatchesAre(head, rs[1..], windowMs);
    }
  }

  /** Records that duplicate a kept one can be dropped beforehand. */
  lemma {:induction false} DropMatches(kept: seq<Record>, head: Record, rs: seq<Record>, windowMs: nat)
    requires head in kept
    ensures KeptAfter(kept, rs, windowMs) == KeptAfter(kept, Others(head, rs, windowMs), windowMs)
    decreases |rs|
  {
    if rs != [] {
      var rest := Others(head, rs[1..], windowMs);
      if Duplicates(head, rs[0], windowMs) {
        DropMatches(kept, head, rs[1..], windowMs);
        assert Others(head, rs, windowMs) == rest;
      } else {
        var kept' := if HasDuplicate(kept, rs[0], windowMs) then kept else kept + [rs[0]];
        DropMatches(kept', head, rs[1..], windowMs);
        assert Others(head, rs, windowMs) == [rs[0]] + rest && ([rs[0]] + rest)[1..] == rest;
      }
    }
  }

  /** A kept record that none of the rest duplicates does not matter for the rest. */
  lemma {:induction false} KeptApart(head: Record, kept: seq<Record>, rs: seq<Record>, windowMs: nat)
    requires forall i :: 0 <= i < |rs| ==> !Duplicates(head, rs[i], windowMs)
    ensures KeptAfter([head] + kept, rs, windowMs) == [head] + KeptAfter(kept, rs, windowMs)
    decreases |rs|
  {
    if rs != [] {
      HasDuplicateCons(head, kept, rs[0], windowMs);
      var kept' := if HasDuplicate(kept, rs[0], windowMs) then kept else kept + [rs[0]];
      KeptApart(head, kept', rs[1..], windowMs);
      assert [head] + kept + [rs[0]] == [head] + (kept + [rs[0]]);
    }
  }

  lemma HasDuplicateCons(head: Record, kept: seq<Record>, r: Record, windowMs: nat)
    ensures HasDuplicate([head] + kept, r, windowMs) <==> Duplicates(head, r, windowMs) || HasDuplicate(kept, r, windowMs)
  {
    var all := [head] + kept;
    if HasDuplicate(kept, r, windowMs) {
      var i :| 0 <= i < |kept| && Duplicates(kept[i], r, windowMs);
      assert all[i + 1] == kept[i];
    }
    if Duplicates(head, r, windowMs) {
      assert all[0] == head;
    }
  }

  lemma KeptByHead(rs: seq<Record>, windowMs: nat)
    requires rs != []
    ensures Kept(rs, windowMs) == [rs[0]] + Kept(Others(rs[0], rs[1..], windowMs), windowMs)
  {
    var others := Others(rs[0], rs[1..], windowMs);
    assert [] + [rs[0]] == [rs[0]] == [rs[0]] + [];
    DropMatches([rs[0]], rs[0], rs[1..], windowMs);
    OthersAre(rs[0], rs[1..], windowMs);
    KeptApart(rs[0], [], others, windowMs);
  }

  lemma {:induction false} BeforeIsAsymmetric(a: string, b: string)
    ensures !(Before(a, b) && Before(b, a))
  {
    if a != "" && b != "" {
      BeforeIsAsymmetric(a[1..], b[1..]);
    }
  }

  lemma {:induction false} EarliestIsFirst(cluster: seq<Record>)
    requires cluster != [] && forall i :: 0 < i < |cluster| ==> Before(cluster[0].filename, cluster[i].filename)
    ensures Earliest(cluster) == cluster[0]
  {
    if |cluster| > 1 {
      EarliestIsFirst(cluster[..|cluster| - 1]);
      BeforeIsAsymmetric(cluster[0].filename, cluster[|cluster| - 1].filename);
    }
  }

  /** Every record comes after `head` and names are in order. */
  ghost predicate Follow(head: Record, rs: seq<Record>) {
    SortedByName(rs) && forall i :: 0 <= i < |rs| ==> Before(head.filename, rs[i].filename)
  }

  lemma {:induction false} PartsFollow(first: Record, head: Record, rs: seq<Record>, windowMs: nat)
    requires Follow(first, rs)
    ensures Follow(first, Matches(head, rs, windowMs)) && Follow(first, Others(head, rs, windowMs))
    decreases |rs|
  {
    if rs != [] {
      assert Follow(first, rs[1..]) && Follow(rs[0], rs[1..]);
      PartsFollow(first, head, rs[1..], windowMs);
      PartsFollow(rs[0], head, rs[1..], windowMs);
    }
  }

  lemma HeadIsKept(rs: seq<Record>, windowMs: nat)
    requires rs != [] && SortedByName(rs)
    ensures var cluster := [rs[0]] + Matches(rs[0], rs[1..], windowMs);
            Earliest(cluster) == rs[0] && rs[0] !in rs[1..]
            && Extras(cluster) == set r | r in rs[1..] && Duplicates(rs[0], r, windowMs)
    ensures SortedByName(rs[1..]) && SortedByName(Others(rs[0], rs[1..], windowMs))
  {
    var cluster := [rs[0]] + Matches(rs[0], rs[1..], windowMs);
    assert Follow(rs[0], rs[1..]);
    PartsFollow(rs[0], rs[0], rs[1..], windowMs);
    EarliestIsFirst(cluster);
    MatchesAre(rs[0], rs[1..], windowMs);
    if rs[0] in rs[1..] {
      BeforeIsAsymmetric(rs[0].filename, rs[0].filename);
    }
    assert forall r :: r in cluster <==> r == rs[0] || r in Matches(rs[0], rs[1..], windowMs);
  }

  /** Taking the head's duplicates out first, then the rest's. */
  lemma {:induction false} WithoutSplit(head: Record, rs: seq<Record>, near: set<Record>, far: set<Record>, windowMs: nat)
    requires forall r :: r in rs ==> (r in near <==> Duplicates(head, r, windowMs))
    ensures Without(rs, near + far) == Without(Others(head, rs, windowMs), far)
  {
    if rs != [] {
      WithoutSplit(head, rs[1..], near, far, windowMs);
      assert rs[0] in rs;
      var rest := Others(head, rs[1..], windowMs);
      assert ([rs[0]] + rest)[1..] == rest;
      if Duplicates(head, rs[0], windowMs) {
        assert Others(head, rs, windowMs) == rest;
      } else {
        assert Others(head, rs, windowMs) == [rs[0]] + rest;
      }
    }
  }

  lemma {:induction false} RemovedAreAmong(rs: seq<Record>, windowMs: nat)
    ensures forall r :: r in Removed(Clusters(rs, windowMs)) ==> r in rs
    decreases |rs|
  {
    if rs != [] {
      var others, matches := Others(rs[0], rs[1..], windowMs), Matches(rs[0], rs[1..], windowMs);
      RemovedAreAmong(others, windowMs);
      OthersAre(rs[0], rs[1..], windowMs);
      MatchesAre(rs[0], rs[1..], windowMs);
      RemovedOfHead(rs, windowMs);
      forall r | r in others ensures r in rs {
        assert exists i :: 0 <= i < |others| && others[i] == r;
      }
    }
  }

  lemma RemovedOfHead(rs: seq<Record>, windowMs: nat)
    requires rs != []
    ensures Removed(Clusters(rs, windowMs))
         == (if Matches(rs[0], rs[1..], windowMs) != [] then Extras([rs[0]] + Matches(rs[0], rs[1..], windowMs)) else {})
            + Removed(Clusters(Others(rs[0], rs[1..], windowMs), windowMs))
  {
    var rest := Clusters(Others(rs[0], rs[1..], windowMs), windowMs);
    var matches := Matches(rs[0], rs[1..], windowMs);
    if matches == [] {
      assert [] + rest == rest && {} + Removed(rest) == Removed(rest);
    } else {
      assert ([[rs[0]] + matches] + rest)[1..] == rest;
    }
  }

  /** Every cluster's first record is the one that is kept. */
  predicate HeadsFirst(rs: seq<Record>, windowMs: nat) {
    forall c :: 0 <= c < |Clusters(rs, windowMs)| ==>
      Clusters(rs, windowMs)[c] != [] && Earliest(Clusters(rs, windowMs)[c]) == Clusters(rs, windowMs)[c][0]
  }

  lemma HeadsFirstOfOthers(rs: seq<Record>, windowMs: nat)
    requires rs != [] && HeadsFirst(rs, windowMs)
    ensures HeadsFirst(Others(rs[0], rs[1..], windowMs), windowMs)
    ensures Matches(rs[0], rs[1..], windowMs) != [] ==> Earliest([rs[0]] + Matches(rs[0], rs[1..], windowMs)) == rs[0]
  {
    var matches, rest := Matches(rs[0], rs[1..], windowMs), Clusters(Others(rs[0], rs[1..], windowMs), windowMs);
    var clusters := Clusters(rs, windowMs);
    if matches == [] {
      assert clusters == rest;
    } else {
      assert clusters == [[rs[0]] + matches] + rest;
      assert clusters[0] == [rs[0]] + matches;
      forall c | 0 <= c < |rest| ensures rest[c] == clusters[c + 1] {
      }
    }
  }

  /** What the head's cluster loses. */
  lemma HeadExtras(rs: seq<Record>, windowMs: nat)
    requires rs != [] && Distinct(rs) && Matches(rs[0], rs[1..], windowMs) != []
    requires Earliest([rs[0]] + Matches(rs[0], rs[1..], windowMs)) == rs[0]
    ensures Extras([rs[0]] + Matches(rs[0], rs[1..], windowMs))
         == set r | r in rs[1..] && Duplicates(rs[0], r, windowMs)
  {
    var matches := Matches(rs[0], rs[1..], windowMs);
    MatchesAre(rs[0], rs[1..], windowMs);
    HeadIsAlone(rs);
    assert forall r :: r in [rs[0]] + matches <==> r == rs[0] || r in matches;
  }

  /** When every cluster keeps its first record, the clean-up leaves exactly what one pass that skips duplicates of
      kept records keeps. */
  lemma {:induction false} CleanedIsKeptIfHeadsFirst(rs: seq<Record>, windowMs: nat)
    requires Distinct(rs) && HeadsFirst(rs, windowMs)
    ensures Cleaned(rs, windowMs) == Kept(rs, windowMs)
    decreases |rs|
  {
    if rs != [] {
      var others := Others(rs[0], rs[1..], windowMs);
      OthersStayDistinct(rs[0], rs[1..], windowMs);
      HeadsFirstOfOthers(rs, windowMs);
      CleanedIsKeptIfHeadsFirst(others, windowMs);
      KeptByHead(rs, windowMs);
      var near := set r | r in rs[1..] && Duplicates(rs[0], r, windowMs);
      var far := Removed(Clusters(others, windowMs));
      RemovedOfHead(rs, windowMs);
      MatchesAre(rs[0], rs[1..], windowMs);
      HeadIsAlone(rs);
      assert Removed(Clusters(rs, windowMs)) == near + far by {
        if Matches(rs[0], rs[1..], windowMs) == [] {
          assert near == {};
        } else {
          HeadExtras(rs, windowMs);
        }
      }
      WithoutSplit(rs[0], rs[1..], near, far, windowMs);
      RemovedAreAmong(others, windowMs);
      OthersAre(rs[0], rs[1..], windowMs);
      assert rs[0] !in others;
    }
  }

  lemma {:induction false} HeadsAreKept(rs: seq<Record>, windowMs: nat)
    ensures forall c :: 0 <= c < |Clusters(rs, windowMs)| ==>
              Clusters(rs, windowMs)[c] != [] && Clusters(rs, windowMs)[c][0] in Kept(rs, windowMs)
    decreases |rs|
  {
    if rs != [] {
      var others := Others(rs[0], rs[1..], windowMs);
      HeadsAreKept(others, windowMs);
      KeptByHead(rs, windowMs);
    }
  }

  /** The clean-up of a list in any order agrees with the one pass if and only if every cluster keeps its first
      record, which a dry run shows. */
  lemma CleanedIsKeptExactlyIfHeadsFirst(rs: seq<Record>, windowMs: nat)
    requires Distinct(rs)
    ensures Cleaned(rs, windowMs) == Kept(rs, windowMs) <==> HeadsFirst(rs, windowMs)
  {
    if HeadsFirst(rs, windowMs) {
      CleanedIsKeptIfHeadsFirst(rs, windowMs);
    } else {
      var clusters := Clusters(rs, windowMs);
      HeadsAreKept(rs, windowMs);
      var c :| 0 <= c < |clusters| && !(clusters[c] != [] && Earliest(clusters[c]) == clusters[c][0]);
      assert IsExtra(clusters[c], clusters[c][0]);
      RemovedAreExtras(clusters, clusters[c][0]);
      WithoutIs(rs, Removed(clusters));
      assert clusters[c][0] in Kept(rs, windowMs) && clusters[c][0] !in Cleaned(rs, windowMs);
    }
  }

  lemma SortedIsDistinct(rs: seq<Record>)
    requires SortedByName(rs)
    ensures Distinct(rs)
  {
    forall i, j | 0 <= i < j < |rs| ensures rs[i] != rs[j] {
      BeforeIsAsymmetric(rs[i].filename, rs[j].filename);
    }
  }

  lemma {:induction false} SortedHasHeadsFirst(rs: seq<Record>, windowMs: nat)
    requires SortedByName(rs)
    ensures HeadsFirst(rs, windowMs)
    decreases |rs|
  {
    if rs != [] {
      HeadIsKept(rs, windowMs);
      SortedHasHeadsFirst(Others(rs[0], rs[1..], windowMs), windowMs);
    }
  }

  /** In particular for files in the order of their names. */
  lemma CleanedIsKept(rs: seq<Record>, windowMs: nat)
    requires SortedByName(rs)
    ensures Cleaned(rs, windowMs) == Kept(rs, windowMs)
  {
    SortedIsDistinct(rs);
    SortedHasHeadsFirst(rs, windowMs);
    CleanedIsKeptIfHeadsFirst(rs, windowMs);
  }

  // ---------------------------------------------------------------- main results

  ghost predicate DuplicateFree(rs: seq<Record>, windowMs: nat) {
    forall i, j :: 0 <= i < j < |rs| ==> !Duplicates(rs[i], rs[j], windowMs)
  }

  /** There is nothing to remove exactly if no two records are copies of one prompt. */
  lemma {:induction false} NoClustersExactlyIfDuplicateFree(rs: seq<Record>, windowMs: nat)
    ensures Clusters(rs, windowMs) == [] <==> DuplicateFree(rs, windowMs)
    decreases |rs|
  {
    if rs != [] {
      DuplicateFreeCons(rs, windowMs);
      if Matches(rs[0], rs[1..], windowMs) == [] {
        OthersOfApart(rs[0], rs[1..], windowMs);
        NoClustersExactlyIfDuplicateFree(rs[1..], windowMs);
      }
    }
  }

  lemma DuplicateFreeCons(rs: seq<Record>, windowMs: nat)
    requires rs != []
    ensures DuplicateFree(rs, windowMs)
       <==> Matches(rs[0], rs[1..], windowMs) == [] && DuplicateFree(rs[1..], windowMs)
    ensures Matches(rs[0], rs[1..], windowMs) == [] ==>
              forall i :: 0 <= i < |rs[1..]| ==> !Duplicates(rs[0], rs[1..][i], windowMs)
  {
    var matches := Matches(rs[0], rs[1..], windowMs);
    MatchesAre(rs[0], rs[1..], windowMs);
    if matches != [] {
      assert matches[0] in rs[1..];
      var i :| 0 <= i < |rs[1..]| && rs[1..][i] == matches[0];
      assert Duplicates(rs[0], rs[i + 1], windowMs);
    } else if DuplicateFree(rs[1..], windowMs) {
      forall i, j | 0 <= i < j < |rs| ensures !Duplicates(rs[i], rs[j], windowMs) {
        assert rs[1..][j - 1] == rs[j];
      }
    } else {
      var i, j :| 0 <= i < j < |rs[1..]| && Duplicates(rs[1..][i], rs[1..][j], windowMs);
      assert Duplicates(rs[i + 1], rs[j + 1], windowMs);
    }
  }

  lemma {:induction false} OthersOfApart(head: Record, rs: seq<Record>, windowMs: nat)
    requires forall i :: 0 <= i < |rs| ==> !Duplicates(head, rs[i], windowMs)
    ensures Others(head, rs, windowMs) == rs
  {
    if rs != [] {
      OthersOfApart(head, rs[1..], windowMs);
    }
  }

  lemma {:induction false} KeptIsDuplicateFree(kept: seq<Record>, rs: seq<Record>, windowMs: nat)
    requires DuplicateFree(kept, windowMs)
    ensures DuplicateFree(KeptAfter(kept, rs, windowMs), windowMs)
    decreases |rs|
  {
    if rs != [] {
      KeptIsDuplicateFree(if HasDuplicate(kept, rs[0], windowMs) then kept else kept + [rs[0]], rs[1..], windowMs);
    }
  }

  /** The kept records come before the ones still to be seen. */
  ghost predicate Precede(kept: seq<Record>, rs: seq<Record>) {
    forall i, j :: 0 <= i < |kept| && 0 <= j < |rs| ==> Before(kept[i].filename, rs[j].filename)
  }

  /** A record with an earlier copy among `kept`. */
  ghost predicate HasEarlierCopy(kept: seq<Record>, r: Record, windowMs: nat) {
    exists i :: 0 <= i < |kept| && Duplicates(kept[i], r, windowMs) && Before(kept[i].filename, r.filename)
  }

  lemma FreshIsKept(kept: seq<Record>, rs: seq<Record>, windowMs: nat)
    requires rs != [] && !HasDuplicate(kept, rs[0], windowMs)
    ensures rs[0] in KeptAfter(kept, rs, windowMs)
  {
    KeptStays(kept + [rs[0]], rs[1..], windowMs);
    assert KeptAfter(kept, rs, windowMs)[|kept|] == rs[0];
  }

  lemma {:induction false} SkippedHasEarlierCopy(kept: seq<Record>, rs: seq<Record>, windowMs: nat, n: nat)
    requires SortedByName(rs) && Precede(kept, rs) && n < |rs| && rs[n] !in KeptAfter(kept, rs, windowMs)
    ensures HasEarlierCopy(KeptAfter(kept, rs, windowMs), rs[n], windowMs)
    decreases |rs|
  {
    var kept' := if HasDuplicate(kept, rs[0], windowMs) then kept else kept + [rs[0]];
    if n == 0 {
      if !HasDuplicate(kept, rs[0], windowMs) {
        FreshIsKept(kept, rs, windowMs);
      }
      KeptStays(kept, rs, windowMs);
      var i :| 0 <= i < |kept| && Duplicates(kept[i], rs[0], windowMs);
      assert KeptAfter(kept, rs, windowMs)[i] == kept[i];
    } else {
      assert rs[1..][n - 1] == rs[n];
      SkippedHasEarlierCopy(kept', rs[1..], windowMs, n - 1);
    }
  }

  /** Whatever the order of the list, if every cluster keeps its first record no two copies of a prompt are left, and
      there is nothing left to do. */
  lemma CleanIsFinishedIfHeadsFirst(rs: seq<Record>, windowMs: nat)
    requires Distinct(rs) && HeadsFirst(rs, windowMs)
    ensures DuplicateFree(Cleaned(rs, windowMs), windowMs) && Clusters(Cleaned(rs, windowMs), windowMs) == []
  {
    CleanedIsKeptIfHeadsFirst(rs, windowMs);
    KeptIsDuplicateFree([], rs, windowMs);
    NoClustersExactlyIfDuplicateFree(Cleaned(rs, windowMs), windowMs);
  }

  /** The clean-up of an ordered list keeps no two copies of a prompt; it removes nothing but later copies of
      kept records, so neither other roles nor records without a time; and there is nothing left to do. */
  lemma CleanupRemovesExactlyLaterCopies(rs: seq<Record>, windowMs: nat, n: nat)
    requires SortedByName(rs) && n < |rs|
    ensures DuplicateFree(Cleaned(rs, windowMs), windowMs) && Clusters(Cleaned(rs, windowMs), windowMs) == []
    ensures rs[n] in Cleaned(rs, windowMs) <==> !HasEarlierCopy(Cleaned(rs, windowMs), rs[n], windowMs)
  {
    var cleaned := Cleaned(rs, windowMs);
    CleanedIsKept(rs, windowMs);
    KeptIsDuplicateFree([], rs, windowMs);
    NoClustersExactlyIfDuplicateFree(cleaned, windowMs);
    if rs[n] !in cleaned {
      SkippedHasEarlierCopy([], rs, windowMs, n);
    } else {
      CopiesAreNotKept(cleaned, rs[n], windowMs);
    }
  }

  lemma CopiesAreNotKept(kept: seq<Record>, r: Record, windowMs: nat)
    requires DuplicateFree(kept, windowMs) && r in kept
    ensures !HasEarlierCopy(kept, r, windowMs)
  {
    var j :| 0 <= j < |kept| && kept[j] == r;
    BeforeIsAsymmetric(r.filename, r.filename);
    forall i | 0 <= i < |kept| && i != j ensures !Duplicates(kept[i], r, windowMs) {
      assert Duplicates(kept[i], r, windowMs) ==> Duplicates(kept[j], kept[i], windowMs);
    }
  }

  /** Records that are not kept make no difference. */
  lemma {:induction false} WithoutSkipped(kept: seq<Record>, rs: seq<Record>, gone: set<Record>, windowMs: nat)
    requires forall r :: r in gone ==> r !in KeptAfter(kept, rs, windowMs)
    ensures KeptAfter(kept, Without(rs, gone), windowMs) == KeptAfter(kept, rs, windowMs)
    decreases |rs|
  {
    if rs != [] {
      var kept' := if HasDuplicate(kept, rs[0], windowMs) then kept else kept + [rs[0]];
      var rest := Without(rs[1..], gone);
      WithoutSkipped(kept', rs[1..], gone, windowMs);
      if rs[0] in gone {
        if !HasDuplicate(kept, rs[0], windowMs) {
          FreshIsKept(kept, rs, windowMs);
        }
        assert Without(rs, gone) == rest;
      } else {
        assert Without(rs, gone) == [rs[0]] + rest && ([rs[0]] + rest)[1..] == rest;
      }
    }
  }

  lemma {:induction false} WithoutIs(rs: seq<Record>, gone: set<Record>)
    ensures forall r :: r in Without(rs, gone) <==> r in rs && r !in gone
  {
    if rs != [] {
      WithoutIs(rs[1..], gone);
    }
  }

  lemma {:induction false} WithoutFollows(head: Record, rs: seq<Record>, gone: set<Record>)
    requires Follow(head, rs)
    ensures Follow(head, Without(rs, gone))
    decreases |rs|
  {
    if rs != [] {
      assert Follow(rs[0], rs[1..]) && Follow(head, rs[1..]);
      WithoutFollows(rs[0], rs[1..], gone);
      WithoutFollows(head, rs[1..], gone);
    }
  }

  lemma WithoutStaysSorted(rs: seq<Record>, gone: set<Record>)
    requires SortedByName(rs)
    ensures SortedByName(Without(rs, gone))
  {
    if rs != [] {
      assert Follow(rs[0], rs[1..]);
      WithoutFollows(rs[0], rs[1..], gone);
    }
  }

  /** The clean-up can be run again: whichever deletions failed, running it once more comes to the same end as if
      none had. */
  lemma RerunComesToTheSameEnd(rs: seq<Record>, refused: set<Record>, windowMs: nat)
    requires SortedByName(rs)
    ensures var left := Without(rs, Removed(Clusters(rs, windowMs)) - refused);
            SortedByName(left) && Cleaned(left, windowMs) == Cleaned(rs, windowMs)
  {
    var gone := Removed(Clusters(rs, windowMs)) - refused;
    WithoutIs(rs, Removed(Clusters(rs, windowMs)));
    CleanedIsKept(rs, windowMs);
    WithoutSkipped([], rs, gone, windowMs);
    WithoutStaysSorted(rs, gone);
    CleanedIsKept(Without(rs, gone), windowMs);
  }

  // ---------------------------------------------------------------- clusters of any list

  ghost predicate Distinct(rs: seq<Record>) {
    forall i, j :: 0 <= i < j < |rs| ==> rs[i] != rs[j]
  }

  /** At least two records of the list, all of them copies of the first. */
  ghost predicate IsCluster(cluster: seq<Record>, rs: seq<Record>, windowMs: nat) {
    |cluster| >= 2 && forall k :: 0 <= k < |cluster| ==>
      cluster[k] in rs && (k > 0 ==> Duplicates(cluster[0], cluster[k], windowMs) && cluster[k] != cluster[0])
  }

  ghost predicate Disjoint(clusters: seq<seq<Record>>) {
    forall c, d :: 0 <= c < d < |clusters| ==> forall r :: r in clusters[c] ==> r !in clusters[d]
  }

  lemma {:induction false} OthersStayDistinct(head: Record, rs: seq<Record>, windowMs: nat)
    requires Distinct(rs)
    ensures Distinct(Others(head, rs, windowMs))
  {
    if rs != [] {
      assert Distinct(rs[1..]);
      OthersStayDistinct(head, rs[1..], windowMs);
      OthersAre(head, rs[1..], windowMs);
      HeadIsAlone(rs);
      var rest := Others(head, rs[1..], windowMs);
      if !Duplicates(head, rs[0], windowMs) {
        assert Others(head, rs, windowMs) == [rs[0]] + rest;
        forall i, j | 0 <= i < j < |rest| + 1 ensures ([rs[0]] + rest)[i] != ([rs[0]] + rest)[j] {
        }
      }
    }
  }

  lemma HeadIsAlone(rs: seq<Record>)
    requires rs != [] && Distinct(rs)
    ensures rs[0] !in rs[1..]
  {
  }

  lemma HeadCluster(rs: seq<Record>, windowMs: nat)
    requires rs != [] && Distinct(rs) && Matches(rs[0], rs[1..], windowMs) != []
    ensures IsCluster([rs[0]] + Matches(rs[0], rs[1..], windowMs), rs, windowMs)
    ensures forall r :: r in [rs[0]] + Matches(rs[0], rs[1..], windowMs) ==> r !in Others(rs[0], rs[1..], windowMs)
  {
    var matches := Matches(rs[0], rs[1..], windowMs);
    MatchesAre(rs[0], rs[1..], windowMs);
    OthersAre(rs[0], rs[1..], windowMs);
    HeadIsAlone(rs);
    forall k | 0 < k < |matches| + 1
      ensures ([rs[0]] + matches)[k] in rs && Duplicates(rs[0], ([rs[0]] + matches)[k], windowMs)
    {
      assert matches[k - 1] in matches;
    }
  }

  /** In any list each cluster consists of copies of one prompt, and no record is in two clusters. */
  lemma {:induction false} ClustersAreDisjointCopies(rs: seq<Record>, windowMs: nat)
    requires Distinct(rs)
    ensures Disjoint(Clusters(rs, windowMs))
    ensures forall c :: 0 <= c < |Clusters(rs, windowMs)| ==> IsCluster(Clusters(rs, windowMs)[c], rs, windowMs)
    decreases |rs|
  {
    if rs != [] {
      var others := Others(rs[0], rs[1..], windowMs);
      var rest := Clusters(others, windowMs);
      OthersStayDistinct(rs[0], rs[1..], windowMs);
      OthersAre(rs[0], rs[1..], windowMs);
      ClustersAreDisjointCopies(others, windowMs);
      ClustersOfPart(others, rs, windowMs);
      if Matches(rs[0], rs[1..], windowMs) == [] {
        assert Clusters(rs, windowMs) == rest;
      } else {
        HeadCluster(rs, windowMs);
        var first := [rs[0]] + Matches(rs[0], rs[1..], windowMs);
        assert Clusters(rs, windowMs) == [first] + rest;
        forall d, r | 0 <= d < |rest| && r in first ensures r !in rest[d] {
          assert IsCluster(rest[d], others, windowMs);
        }
        DisjointCons(first, rest);
      }
    }
  }

  lemma DisjointCons(first: seq<Record>, rest: seq<seq<Record>>)
    requires Disjoint(rest) && forall d, r :: 0 <= d < |rest| && r in first ==> r !in rest[d]
    ensures Disjoint([first] + rest)
  {
    var all := [first] + rest;
    forall c, d | 0 <= c < d < |all| ensures forall r :: r in all[c] ==> r !in all[d] {
      assert all[d] == rest[d - 1] && (c > 0 ==> all[c] == rest[c - 1]);
    }
  }

  lemma ClustersOfPart(part: seq<Record>, rs: seq<Record>, windowMs: nat)
    requires forall i :: 0 <= i < |part| ==> part[i] in rs
    requires forall c :: 0 <= c < |Clusters(part, windowMs)| ==> IsCluster(Clusters(part, windowMs)[c], part, windowMs)
    ensures forall c :: 0 <= c < |Clusters(part, windowMs)| ==> IsCluster(Clusters(part, windowMs)[c], rs, windowMs)
  {
    var clusters := Clusters(part, windowMs);
    forall c | 0 <= c < |clusters| ensures IsCluster(clusters[c], rs, windowMs) {
      forall k | 0 <= k < |clusters[c]| ensures clusters[c][k] in rs {
        assert IsCluster(clusters[c], part, windowMs) && clusters[c][k] in part;
      }
    }
  }

  lemma {:induction false} EarliestIsMember(cluster: seq<Record>)
    requires cluster != []
    ensures Earliest(cluster) in cluster
  {
    if |cluster| > 1 {
      EarliestIsMember(cluster[..|cluster| - 1]);
    }
  }

  /** Every removed record is an extra of some cluster. */
  lemma {:induction false} RemovedAreExtras(clusters: seq<seq<Record>>, r: Record)
    ensures r in Removed(clusters) <==> exists c :: 0 <= c < |clusters| && IsExtra(clusters[c], r)
  {
    if clusters != [] {
      RemovedAreExtras(clusters[1..], r);
      if IsExtra(clusters[0], r) {
      } else if r in Removed(clusters) {
        var c :| 0 <= c < |clusters[1..]| && IsExtra(clusters[1..][c], r);
        assert IsExtra(clusters[c + 1], r);
      } else {
        forall c | 0 <= c < |clusters| ensures !IsExtra(clusters[c], r) {
          assert c > 0 ==> clusters[1..][c - 1] == clusters[c];
        }
      }
    }
  }

  ghost predicate IsExtra(cluster: seq<Record>, r: Record) {
    cluster != [] && r in Extras(cluster)
  }

  /** Whatever the order of the files, each cluster keeps its earliest record, and everything removed is a user's
      record whose cluster keeps one with the same content and session, at most two windows away. */
  lemma EachClusterKeepsItsEarliest(rs: seq<Record>, windowMs: nat, r: Record)
    requires Distinct(rs)
    ensures forall c :: 0 <= c < |Clusters(rs, windowMs)| ==>
              Clusters(rs, windowMs)[c] != [] && Earliest(Clusters(rs, windowMs)[c]) in Cleaned(rs, windowMs)
    ensures r in rs && r !in Cleaned(rs, windowMs) ==>
              r.role == "user" && exists k :: k in Cleaned(rs, windowMs) && IsCopyOf(r, k, windowMs)
  {
    var clusters := Clusters(rs, windowMs);
    ClustersAreDisjointCopies(rs, windowMs);
    WithoutIs(rs, Removed(clusters));
    forall c | 0 <= c < |clusters|
      ensures clusters[c] != [] && Earliest(clusters[c]) in Cleaned(rs, windowMs)
    {
      assert IsCluster(clusters[c], rs, windowMs);
      EarliestIsNotRemoved(clusters, c);
      EarliestIsMember(clusters[c]);
    }
    if r in rs && r !in Cleaned(rs, windowMs) {
      RemovedAreExtras(clusters, r);
      var c :| 0 <= c < |clusters| && IsExtra(clusters[c], r);
      assert IsCluster(clusters[c], rs, windowMs);
      EarliestIsMember(clusters[c]);
      MembersAreCopies(clusters[c], rs, windowMs, r, Earliest(clusters[c]));
    }
  }

  /** Both are copies of one record, and so at most two windows apart. */
  predicate IsCopyOf(r: Record, k: Record, windowMs: nat) {
    && r.role == k.role == "user" && r.content == k.content && r.sessionId == k.sessionId
    && r.time.Some? && k.time.Some?
    && r.time.value - k.time.value <= 2 * windowMs && k.time.value - r.time.value <= 2 * windowMs
  }

  lemma MembersAreCopies(cluster: seq<Record>, rs: seq<Record>, windowMs: nat, r: Record, k: Record)
    requires IsCluster(cluster, rs, windowMs) && r in cluster && k in cluster
    ensures IsCopyOf(r, k, windowMs)
  {
    assert Duplicates(cluster[0], cluster[1], windowMs);
    var i :| 0 <= i < |cluster| && cluster[i] == r;
    var j :| 0 <= j < |cluster| && cluster[j] == k;
  }

  lemma EarliestIsNotRemoved(clusters: seq<seq<Record>>, c: nat)
    requires Disjoint(clusters) && c < |clusters| && clusters[c] != []
    ensures Earliest(clusters[c]) !in Removed(clusters)
  {
    var e := Earliest(clusters[c]);
    EarliestIsMember(clusters[c]);
    RemovedAreExtras(clusters, e);
    forall d | 0 <= d < |clusters| ensures !IsExtra(clusters[d], e) {
      if d != c {
        assert e !in clusters[d];
      }
    }
  }

  // ---------------------------------------------------------------- where it does not hold

  function Prompt(directory: Directory, filename: string, time: int): Record {
    Record(directory, filename, "user", "hello", "s", Some(time))
  }

  lemma OneOther(b: Record, c: Record, windowMs: nat)
    ensures Matches(b, [c], windowMs) == if Duplicates(b, c, windowMs) then [c] else []
    ensures Others(b, [c], windowMs) == if Duplicates(b, c, windowMs) then [] else [c]
    ensures Clusters([c], windowMs) == []
  {
    var rs := [c];
    assert rs[1..] == [];
    assert Matches(b, rs, windowMs) == (if Duplicates(b, rs[0], windowMs) then [rs[0]] else []) + Matches(b, [], windowMs);
    assert Others(b, rs, windowMs) == (if Duplicates(b, rs[0], windowMs) then [] else [rs[0]]) + Others(b, [], windowMs);
  }

  lemma TwoCopies(b: Record, c: Record, windowMs: nat)
    requires Duplicates(b, c, windowMs)
    ensures Clusters([b, c], windowMs) == [[b, c]]
  {
    OneOther(b, c, windowMs);
    var rs := [b, c];
    assert rs[1..] == [c];
    assert Clusters(rs, windowMs) == [[b] + [c]] + Clusters([], windowMs);
    assert [b] + [c] == rs;
  }

  lemma FirstAndLastCopies(a: Record, b: Record, c: Record, windowMs: nat)
    requires Duplicates(a, c, windowMs) && !Duplicates(a, b, windowMs)
    ensures Clusters([a, b, c], windowMs) == [[a, c]]
  {
    var rs, rest := [a, b, c], [b, c];
    OneOther(a, c, windowMs);
    OneOther(a, b, windowMs);
    assert rs[1..] == rest && rest[1..] == [c];
    assert Matches(a, rest, windowMs) == [] + Matches(a, [c], windowMs);
    assert Others(a, rest, windowMs) == [b] + Others(a, [c], windowMs) == [b];
    assert Matches(rs[0], rs[1..], windowMs) == [c] && Others(rs[0], rs[1..], windowMs) == [b];
    assert Clusters(rs, windowMs) == [[a] + [c]] + Clusters([b], windowMs);
    assert [a] + [c] == [a, c];
  }

  lemma ExtrasOfTwo(a: Record, c: Record)
    requires Before(c.filename, a.filename) && a != c
    ensures Removed([[a, c]]) == {a}
  {
    assert [a, c][..1] == [a] && Earliest([a]) == a && Earliest([a, c]) == c;
    assert Extras([a, c]) == {a};
    assert [[a, c]][1..] == [];
  }

  lemma WithoutFirst(a: Record, b: Record, c: Record)
    requires a != b && a != c
    ensures Without([a, b, c], {a}) == [b, c]
  {
    assert [a, b, c][1..] == [b, c] && [b, c][1..] == [c] && [c][1..] == [];
    assert Without([c], {a}) == [c] && Without([b, c], {a}) == [b, c];
  }

  /** The last of three records is a copy of both others, which are not copies of each other, and has the earliest
      name: one run removes the first record, and the next finds a cluster. */
  lemma ChainOfThree(a: Record, b: Record, c: Record, windowMs: nat)
    requires Duplicates(a, c, windowMs) && !Duplicates(a, b, windowMs) && Duplicates(b, c, windowMs)
    requires Before(c.filename, a.filename) && a != b && a != c
    ensures Cleaned([a, b, c], windowMs) == [b, c] && Clusters([b, c], windowMs) == [[b, c]]
  {
    FirstAndLastCopies(a, b, c, windowMs);
    TwoCopies(b, c, windowMs);
    ExtrasOfTwo(a, c);
    WithoutFirst(a, b, c);
  }

  /** Two records are a cluster exactly if both are a user's, say the same in the same session, and their times are
      known and at most the window apart. */
  lemma PairIsClusterExactly(a: Record, b: Record, windowMs: nat)
    ensures Clusters([a, b], windowMs)
         == if && a.role == "user" && b.role == "user" && a.content == b.content && a.sessionId == b.sessionId
               && a.time.Some? && b.time.Some? && b.time.value - a.time.value <= windowMs
               && a.time.value - b.time.value <= windowMs
            then [[a, b]] else []
  {
    assert [a, b][1..] == [b] && [b][1..] == [];
    if Duplicates(a, b, windowMs) {
      TwoCopies(a, b, windowMs);
    } else {
      assert Matches(a, [b], windowMs) == [] && Others(a, [b], windowMs) == [b];
      assert Clusters([b], windowMs) == [] + Clusters([], windowMs);
    }
  }

  /** With the cold directory included the list is no longer in the order of the names, the record that is kept
      need not be the one the cluster was built around, and a second run finds another cluster. */
  lemma WithColdAnotherRunFindsMore()
    ensures var hot := [Prompt(Hot, "m0003.md", 0), Prompt(Hot, "m0004.md", -50)];
            var cold := [Prompt(Cold, "m0001.md", -30)];
            && SortedByName(hot) && SortedByName(cold)
            && Cleaned(hot + cold, 30) == [hot[1], cold[0]]
            && Clusters(Cleaned(hot + cold, 30), 30) == [[hot[1], cold[0]]]
  {
    var a, b, c := Prompt(Hot, "m0003.md", 0), Prompt(Hot, "m0004.md", -50), Prompt(Cold, "m0001.md", -30);
    assert Before("m0003.md", "m0004.md") by { NamesDifferAt("m000", "3.md", "4.md"); }
    assert Before("m0001.md", "m0003.md") by { NamesDifferAt("m000", "1.md", "3.md"); }
    ChainOfThree(a, b, c, 30);
    assert [a, b] + [c] == [a, b, c];
  }

  /** The condition is not necessary for being finished: of two copies the later one is kept if its name comes first,
      and nothing is left to do. */
  lemma FinishedWithoutHeadsFirst(a: Record, c: Record, windowMs: nat)
    requires Duplicates(a, c, windowMs) && Before(c.filename, a.filename)
    ensures !HeadsFirst([a, c], windowMs)
    ensures Cleaned([a, c], windowMs) == [c] && Clusters(Cleaned([a, c], windowMs), windowMs) == []
  {
    BeforeIsAsymmetric(a.filename, a.filename);
    TwoCopies(a, c, windowMs);
    ExtrasOfTwo(a, c);
    assert Clusters([a, c], windowMs)[0] == [a, c] && [a, c][..1] == [a] && Earliest([a, c]) == c;
    var rs := [a, c];
    assert rs[1..] == [c] && [c][1..] == [];
    assert Without([c], {a}) == [c] && Without(rs, {a}) == [] + Without(rs[1..], {a});
    OneOther(a, c, windowMs);
  }

  lemma {:induction false} NamesDifferAt(same: string, a: string, b: string)
    requires a != "" && b != "" && a[0] < b[0]
    ensures Before(same + a, same + b)
  {
    if same == "" {
      assert same + a == a && same + b == b;
    } else {
      NamesDifferAt(same[1..], a, b);
      assert (same + a)[1..] == same[1..] + a && (same + b)[1..] == same[1..] + b;
    }
  }

  // ---------------------------------------------------------------- names and message numbers

  /** The number of digits a message number is written with, at least four. */
  function Digits(n: nat): (d: nat)
    ensures d >= 4
  {
    if n < 10_000 then 4 else 1 + Digits(n / 10)
  }

  function DigitOf(n: nat): char {
    ('0' as int + n % 10) as char
  }

  /** The last `len` decimal digits of `n`. */
  function Numeral(n: nat, len: nat): string {
    if len == 0 then "" else Numeral(n / 10, len - 1) + [DigitOf(n)]
  }

  /** The file name of message `n`. */
  function Name(n: nat): string {
    "m" + (Numeral(n, Digits(n)) + ".md")
  }

  /** `n` without its last `drop` digits. */
  function Leading(n: nat, drop: nat): nat {
    if drop == 0 then n else Leading(n / 10, drop - 1)
  }

  /** `n` cut to its first `len` digits, if it has more. */
  function Cut(n: nat, len: nat): nat {
    if Digits(n) <= len then n else Leading(n, Digits(n) - len)
  }

  /** `n` has at most `len` digits. */
  predicate FitsIn(n: nat, len: nat) {
    Leading(n, len) == 0
  }

  lemma {:induction false} DigitsFit(n: nat)
    ensures FitsIn(n, Digits(n))
  {
    if n < 10_000 {
      assert n / 10 / 10 / 10 / 10 == 0;
      assert Leading(n, 4) == Leading(n / 10, 3) == Leading(n / 10 / 10, 2) == Leading(n / 10 / 10 / 10, 1);
      assert Leading(n / 10 / 10 / 10, 1) == Leading(n / 10 / 10 / 10 / 10, 0);
    } else {
      DigitsFit(n / 10);
    }
  }

  lemma {:induction false} DigitsGrow(a: nat, b: nat)
    requires a <= b
    ensures Digits(a) <= Digits(b)
  {
    if a >= 10_000 {
      DigitsGrow(a / 10, b / 10);
    }
  }

  /** Numerals of equal length are ordered like the numbers; what follows decides between equal ones. */
  lemma {:induction false} NumeralOrder(a: nat, b: nat, len: nat, x: string, y: string)
    requires FitsIn(a, len) && FitsIn(b, len)
    ensures Before(Numeral(a, len) + x, Numeral(b, len) + y) <==> a < b || (a == b && Before(x, y))
    decreases len
  {
    if len == 0 {
      assert "" + x == x && "" + y == y;
    } else {
      var x', y' := [DigitOf(a)] + x, [DigitOf(b)] + y;
      NumeralOrder(a / 10, b / 10, len - 1, x', y');
      assert Numeral(a, len) + x == Numeral(a / 10, len - 1) + x';
      assert Numeral(b, len) + y == Numeral(b / 10, len - 1) + y';
      assert x'[1..] == x && y'[1..] == y;
      assert a == a / 10 * 10 + a % 10 && b == b / 10 * 10 + b % 10;
    }
  }

  /** A numeral is the numeral of its leading digits and more digits. */
  lemma {:induction false} NumeralSplits(n: nat, len: nat, drop: nat) returns (rest: string)
    requires drop <= len
    ensures Numeral(n, len) == Numeral(Leading(n, drop), len - drop) + rest
    ensures |rest| == drop && (drop > 0 ==> '0' <= rest[0] <= '9')
    decreases drop
  {
    if drop == 0 {
      rest := "";
    } else {
      var front := NumeralSplits(n / 10, len - 1, drop - 1);
      rest := front + [DigitOf(n)];
    }
  }

  lemma {:induction false} LeadingFits(n: nat, len: nat, drop: nat)
    requires drop <= len && FitsIn(n, len)
    ensures FitsIn(Leading(n, drop), len - drop)
    decreases drop
  {
    if drop > 0 {
      LeadingFits(n / 10, len - 1, drop - 1);
    }
  }

  /** The order of the names is that of two messages exactly if the earlier number is at most the later one cut to
      as many digits; so for numbers of equally many digits, and for 1000 and 10000, but not for 9999 and 10000. */
  lemma NameOrderIsMessageOrder(a: nat, b: nat)
    requires a < b
    ensures Before(Name(a), Name(b)) <==> a <= Cut(b, Digits(a))
    ensures !Before(Name(a), Name(b)) ==> Before(Name(b), Name(a))
  {
    var k, m := Digits(a), Digits(b);
    DigitsGrow(a, b);
    DigitsFit(a);
    DigitsFit(b);
    LeadingFits(b, m, m - k);
    var rest := NumeralSplits(b, m, m - k);
    var q := Leading(b, m - k);
    assert Numeral(b, m) + ".md" == Numeral(q, k) + (rest + ".md");
    NumeralOrder(a, q, k, ".md", rest + ".md");
    NumeralOrder(q, a, k, rest + ".md", ".md");
    assert ("m" + (Numeral(a, k) + ".md"))[1..] == Numeral(a, k) + ".md";
    assert ("m" + (Numeral(b, m) + ".md"))[1..] == Numeral(b, m) + ".md";
    if m > k {
      assert (rest + ".md")[0] == rest[0] && '.' < '0';
    } else {
      BeforeIsAsymmetric(".md", ".md");
      assert rest + ".md" == ".md";
    }
  }

  /** The numbers of the messages, one for each record. */
  ghost predicate AreNumbered(rs: seq<Record>, numbers: seq<nat>) {
    |numbers| == |rs| && forall i :: 0 <= i < |rs| ==> rs[i].filename == Name(numbers[i])
  }

  /** `n` is the earlier message but its name comes later. */
  predicate Overtakes(later: nat, n: nat) {
    n < later && Cut(later, Digits(n)) < n
  }

  lemma LaterNameExactly(h: nat, n: nat)
    requires Before(Name(h), Name(n))
    ensures h < n <==> !Overtakes(h, n)
    ensures Digits(n) == Digits(h) ==> h < n
  {
    BeforeIsAsymmetric(Name(h), Name(n));
    if n < h {
      NameOrderIsMessageOrder(n, h);
    }
  }

  /** The kept record of a cluster whose first name it is, is the earliest message of the cluster if and only if it
      overtakes no other; so if all numbers have equally many digits. */
  lemma KeptIsEarliestMessageExactly(cluster: seq<Record>, numbers: seq<nat>)
    requires cluster != [] && AreNumbered(cluster, numbers)
    requires forall i :: 0 < i < |cluster| ==> Before(cluster[0].filename, cluster[i].filename)
    ensures Earliest(cluster) == cluster[0]
    ensures (forall i :: 0 < i < |numbers| ==> numbers[0] < numbers[i])
       <==> (forall i :: 0 < i < |numbers| ==> !Overtakes(numbers[0], numbers[i]))
    ensures (forall i :: 0 < i < |numbers| ==> Digits(numbers[i]) == Digits(numbers[0])) ==>
              forall i :: 0 < i < |numbers| ==> numbers[0] < numbers[i]
  {
    EarliestIsFirst(cluster);
    forall i | 0 < i < |numbers|
      ensures numbers[0] < numbers[i] <==> !Overtakes(numbers[0], numbers[i])
      ensures Digits(numbers[i]) == Digits(numbers[0]) ==> numbers[0] < numbers[i]
    {
      LaterNameExactly(numbers[0], numbers[i]);
    }
  }

  /** A message that overtakes an earlier copy of itself is kept in its place. */
  lemma OvertakenCopyGoes(later: Record, earlier: Record, numbers: (nat, nat), windowMs: nat)
    requires later.filename == Name(numbers.0) && earlier.filename == Name(numbers.1)
    requires Overtakes(numbers.0, numbers.1) && Duplicates(later, earlier, windowMs)
    ensures SortedByName([later, earlier]) && Cleaned([later, earlier], windowMs) == [later]
  {
    NameOrderIsMessageOrder(numbers.1, numbers.0);
    var rs := [later, earlier];
    assert SortedByName(rs);
    CleanedIsKept(rs, windowMs);
    KeptByHead(rs, windowMs);
    assert rs[1..] == [earlier];
    OneOther(later, earlier, windowMs);
  }

  /** Message 10000 comes before message 9999, which is then removed as its copy. */
  lemma PastTenThousandTheOlderGoes()
    ensures var rs := [Prompt(Hot, Name(10_000), 1), Prompt(Hot, Name(9999), 0)];
            SortedByName(rs) && Cleaned(rs, 30) == [rs[0]]
  {
    assert Digits(9999) == 4 && Digits(10_000) == 5 && Cut(10_000, 4) == Leading(10_000, 1) == Leading(1000, 0);
    OvertakenCopyGoes(Prompt(Hot, Name(10_000), 1), Prompt(Hot, Name(9999), 0), (10_000, 9999), 30);
  }

  // ---------------------------------------------------------------- the script

  /** The records from `i` on that are in no cluster yet. */
  ghost function Pending(rs: seq<Record>, i: nat, consumed: set<int>): seq<Record>
    requires i <= |rs|
    decreases |rs| - i
  {
    if i == |rs| then [] else (if i in consumed then [] else [rs[i]]) + Pending(rs, i + 1, consumed)
  }

  lemma {:induction false} PendingAll(rs: seq<Record>, i: nat)
    requires i <= |rs|
    ensures Pending(rs, i, {}) == rs[i..]
    decreases |rs| - i
  {
    if i < |rs| {
      PendingAll(rs, i + 1);
    }
  }

  /** When exactly the head's copies have been consumed, the others are left. */
  lemma {:induction false} PendingOthers(rs: seq<Record>, i: nat, consumed: set<int>, consumed': set<int>, head: Record,
                                         windowMs: nat)
    requires i <= |rs|
    requires forall k :: i <= k < |rs| ==> (k in consumed' <==> k in consumed || Duplicates(head, rs[k], windowMs))
    ensures Pending(rs, i, consumed') == Others(head, Pending(rs, i, consumed), windowMs)
    decreases |rs| - i
  {
    if i < |rs| {
      PendingOthers(rs, i + 1, consumed, consumed', head, windowMs);
      var rest := Pending(rs, i + 1, consumed);
      if i !in consumed {
        assert Pending(rs, i, consumed) == [rs[i]] + rest && ([rs[i]] + rest)[1..] == rest;
      } else {
        assert Pending(rs, i, consumed) == rest;
      }
    }
  }

  predicate Joins(rs: seq<Record>, j: nat, consumed: set<int>, head: Record, windowMs: nat)
    requires j < |rs|
  {
    j !in consumed && Duplicates(head, rs[j], windowMs)
  }

  /** The inner loop looks at one more record. */
  lemma OneMoreLooked(rs: seq<Record>, j: nat, consumed: set<int>, head: Record, windowMs: nat, cluster: seq<Record>,
                      whole: seq<Record>)
    requires j < |rs| && cluster + Matches(head, Pending(rs, j, consumed), windowMs) == whole
    ensures cluster + (if Joins(rs, j, consumed, head, windowMs) then [rs[j]] else [])
            + Matches(head, Pending(rs, j + 1, consumed), windowMs) == whole
  {
    var rest := Pending(rs, j + 1, consumed);
    if j !in consumed {
      assert Pending(rs, j, consumed) == [rs[j]] + rest && ([rs[j]] + rest)[1..] == rest;
    } else {
      assert Pending(rs, j, consumed) == rest;
    }
  }

  /** Besides what was consumed before, the copies of the head between `i` and `j` are consumed. */
  ghost predicate ConsumedUpTo(rs: seq<Record>, i: nat, j: nat, consumed: set<int>, consumed': set<int>, head: Record,
                               windowMs: nat)
  {
    forall k :: i < k < |rs| ==> (k in consumed' <==> k in consumed || (k < j && Duplicates(head, rs[k], windowMs)))
  }

  lemma OneMoreConsumed(rs: seq<Record>, i: nat, j: nat, consumed: set<int>, consumed': set<int>, head: Record,
                        windowMs: nat)
    requires i < j < |rs| && ConsumedUpTo(rs, i, j, consumed, consumed', head, windowMs)
    ensures ConsumedUpTo(rs, i, j + 1, consumed,
                         if Joins(rs, j, consumed, head, windowMs) then consumed' + {j} else consumed', head, windowMs)
    ensures j in consumed' <==> j in consumed
  {
  }

  /** The cluster around record `i`, and what has been consumed with it. */
  method ClusterOf(records: seq<Record>, windowMs: nat, i: nat, consumed: set<int>)
      returns (cluster: seq<Record>, consumed': set<int>)
    requires i < |records| && i !in consumed && records[i].role == "user" && records[i].time.Some?
    ensures cluster == [records[i]] + Matches(records[i], Pending(records, i + 1, consumed), windowMs)
    ensures Pending(records, i + 1, consumed') == Others(records[i], Pending(records, i + 1, consumed), windowMs)
  {
    var head := records[i];
    var headTime := head.time.value;
    cluster := [head];
    consumed' := consumed + {i};
    ghost var whole := [head] + Matches(head, Pending(records, i + 1, consumed), windowMs);
    var j := i + 1;
    while j < |records|
      invariant i < j <= |records| && ConsumedUpTo(records, i, j, consumed, consumed', head, windowMs)
      invariant cluster + Matches(head, Pending(records, j, consumed), windowMs) == whole
    {
      OneMoreLooked(records, j, consumed, head, windowMs, cluster, whole);
      OneMoreConsumed(records, i, j, consumed, consumed', head, windowMs);
      if j !in consumed' && IsCopyAt(records[j], head, headTime, windowMs) {
        cluster := cluster + [records[j]];
        consumed' := consumed' + {j};
      } else {
        assert cluster + [] == cluster;
      }
      j := j + 1;
    }
    PendingOthers(records, i + 1, consumed, consumed', head, windowMs);
  }

  predicate IsCopyAt(r: Record, head: Record, headTime: int, windowMs: nat) {
    && r.role == "user" && r.content == head.content && r.sessionId == head.sessionId && r.time.Some?
    && !(if r.time.value - headTime < 0 then headTime - r.time.value > windowMs else r.time.value - headTime > windowMs)
  }

  method FindClusters(records: seq<Record>, windowMs: nat) returns (clusters: seq<seq<Record>>)
    ensures clusters == Clusters(records, windowMs)
  {
    clusters := [];
    var consumed: set<int> := {};
    var i := 0;
    PendingAll(records, 0);
    while i < |records|
      invariant 0 <= i <= |records|
      invariant clusters + Clusters(Pending(records, i, consumed), windowMs) == Clusters(records, windowMs)
    {
      ghost var pending := Pending(records, i + 1, consumed);
      if i in consumed {
        assert Pending(records, i, consumed) == pending;
      } else if records[i].role != "user" || records[i].time.None? {
        LonelyHead(records[i], pending, windowMs);
        assert Pending(records, i, consumed) == [records[i]] + pending;
      } else {
        ClustersCons(records[i], pending, windowMs);
        assert Pending(records, i, consumed) == [records[i]] + pending;
        var cluster;
        cluster, consumed := ClusterOf(records, windowMs, i, consumed);
        if |cluster| > 1 {
          clusters := clusters + [cluster];
        }
      }
      i := i + 1;
    }
  }

  lemma ClustersCons(head: Record, rest: seq<Record>, windowMs: nat)
    ensures Clusters([head] + rest, windowMs)
         == (if Matches(head, rest, windowMs) != [] then [[head] + Matches(head, rest, windowMs)] else [])
            + Clusters(Others(head, rest, windowMs), windowMs)
  {
    assert ([head] + rest)[1..] == rest;
  }

  /** A record that is no user's or has no time has no copies. */
  lemma {:induction false} LonelyHead(head: Record, rest: seq<Record>, windowMs: nat)
    requires head.role != "user" || head.time.None?
    ensures Matches(head, rest, windowMs) == [] && Clusters([head] + rest, windowMs) == Clusters(rest, windowMs)
  {
    if rest != [] {
      LonelyHead(head, rest[1..], windowMs);
    }
    ClustersCons(head, rest, windowMs);
    OthersOfApart(head, rest, windowMs);
  }

  /** The deletions of one cluster; a file in `refused` cannot be backed up or deleted and stays. */
  method DeleteExtras(files: seq<Record>, cluster: seq<Record>, refused: set<Record>) returns (left: seq<Record>)
    requires cluster != []
    ensures left == Without(files, Extras(cluster) - refused)
  {
    var keep := Earliest(cluster);
    left := files;
    WithoutNothing(files);
    ghost var gone: set<Record> := {};
    var i := 0;
    while i < |cluster|
      invariant 0 <= i <= |cluster|
      invariant gone == (set r | r in cluster[..i]) - {keep} - refused
      invariant left == Without(files, gone)
    {
      assert cluster[..i + 1] == cluster[..i] + [cluster[i]];
      if cluster[i] != keep && cluster[i] !in refused {
        WithoutTwice(files, gone, {cluster[i]});
        left := Without(left, {cluster[i]});
        gone := gone + {cluster[i]};
      }
      i := i + 1;
    }
    assert cluster[..i] == cluster;
  }

  lemma {:induction false} WithoutNothing(rs: seq<Record>)
    ensures Without(rs, {}) == rs
  {
    if rs != [] {
      WithoutNothing(rs[1..]);
    }
  }

  lemma {:induction false} WithoutTwice(rs: seq<Record>, gone: set<Record>, gone': set<Record>)
    ensures Without(Without(rs, gone), gone') == Without(rs, gone + gone')
  {
    if rs != [] {
      WithoutTwice(rs[1..], gone, gone');
      var rest := Without(rs[1..], gone);
      if rs[0] !in gone {
        assert ([rs[0]] + rest)[1..] == rest;
      } else {
        assert Without(rs, gone) == rest;
      }
    }
  }

  method DeleteAll(records: seq<Record>, clusters: seq<seq<Record>>, refused: set<Record>) returns (left: seq<Record>)
    requires forall c :: 0 <= c < |clusters| ==> clusters[c] != []
    ensures left == Without(records, Removed(clusters) - refused)
  {
    left := records;
    WithoutNothing(records);
    ghost var gone: set<Record> := {};
    var i := 0;
    assert clusters[0..] == clusters;
    while i < |clusters|
      invariant 0 <= i <= |clusters| && left == Without(records, gone)
      invariant Removed(clusters) - refused == gone + (Removed(clusters[i..]) - refused)
    {
      assert clusters[i..][1..] == clusters[i + 1..] && clusters[i..][0] == clusters[i];
      ghost var extras := Extras(clusters[i]) - refused;
      WithoutTwice(records, gone, extras);
      left := DeleteExtras(left, clusters[i], refused);
      gone := gone + extras;
      i := i + 1;
    }
    assert Removed(clusters[i..]) == {};
    assert gone == Removed(clusters) - refused;
  }

  lemma {:induction false} ClustersAreNotEmpty(rs: seq<Record>, windowMs: nat)
    ensures forall c :: 0 <= c < |Clusters(rs, windowMs)| ==> Clusters(rs, windowMs)[c] != []
    decreases |rs|
  {
    if rs != [] {
      ClustersAreNotEmpty(Others(rs[0], rs[1..], windowMs), windowMs);
    }
  }

  /** The script over the hot files and, if asked, the cold ones; without `apply` it only looks. */
  method CleanUp(hot: seq<Record>, cold: seq<Record>, includeCold: bool, windowMs: nat, apply: bool,
                 refused: set<Record>)
      returns (left: seq<Record>, clusters: seq<seq<Record>>)
    ensures clusters == Clusters(hot + (if includeCold then cold else []), windowMs)
    ensures left == Without(hot + (if includeCold then cold else []), if apply then Removed(clusters) - refused else {})
  {
    var records := hot;
    if includeCold {
      records := records + cold;
    }
    assert hot + [] == hot;
    clusters := FindClusters(records, windowMs);
    left := records;
    WithoutNothing(records);
    if apply {
      ClustersAreNotEmpty(records, windowMs);
      left := DeleteAll(records, clusters, refused);
    }
  }
}
