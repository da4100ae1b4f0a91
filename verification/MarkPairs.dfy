/** Which formatting tags belong together, told from the tags alone. */
module MarkPairs {
  import opened MarkParser

  /** A closing tag matches an opening one of its kind if everything opened between is closed between, and the opening
   * tag is not matched before. */
  ghost predicate Match(tags: seq<Found>, i: nat, j: nat)
    decreases j - i
  {
    && i < j < |tags| && !tags[i].closing && tags[j].closing && tags[i].kind == tags[j].kind
    && (forall k: nat :: i < k < j && !tags[k].closing ==> exists l: nat :: k < l < j && Match(tags, k, l))
    && (forall l: nat :: i < l < j ==> !Match(tags, i, l))
  }

  lemma {:induction false} OpensItself(tags: seq<Found>, i: nat)
    requires i < |tags| && !tags[i].closing
    ensures i in OpenAfter(tags, i + 1)
  {
    var open := OpenAfter(tags, i);
    assert (open + [i])[|open|] == i;
  }

  lemma {:induction false} ClosedBetween(tags: seq<Found>, i: nat, n: nat, m: nat) returns (j: nat)
    requires n <= m <= |tags| && i in OpenAfter(tags, n) && i !in OpenAfter(tags, m)
    ensures n <= j < m && Closes(tags, i, j)
    decreases m - n
  {
    if i in OpenAfter(tags, n + 1) {
      j := ClosedBetween(tags, i, n + 1, m);
    } else {
      var open := OpenAfter(tags, n);
      assert OpenAfter(tags, n + 1) == open[..|open| - 1];
      LeavesLast(open, i);
      j := n;
    }
  }

  lemma {:induction false} GoneFrom(tags: seq<Found>, i: nat, j: nat, n: nat)
    requires Closes(tags, i, j) && j < n <= |tags|
    ensures i !in OpenAfter(tags, n)
  {
    ClosedIsGone(tags, i, j);
    if i in OpenAfter(tags, n) { OpenSince(tags, i, j + 1, n); }
  }

  lemma {:induction false} LastIsGreatest(s: seq<nat>, k: nat)
    requires k in s && forall x, y :: 0 <= x < y < |s| ==> s[x] < s[y]
    ensures k <= s[|s| - 1]
  {
    var x :| 0 <= x < |s| && s[x] == k;
  }

  /** Above the tag that is closed next nothing is open. */
  lemma {:induction false} LastIsHighest(tags: seq<Found>, i: nat, j: nat, k: nat)
    requires Closes(tags, i, j) && k in OpenAfter(tags, j)
    ensures k <= i
  {
    OpensAscend(tags, j);
    LastIsGreatest(OpenAfter(tags, j), k);
  }

  lemma {:induction false} HighestIsLast(tags: seq<Found>, i: nat, j: nat)
    requires j <= |tags| && i in OpenAfter(tags, j) && forall k :: i < k < j ==> k !in OpenAfter(tags, j)
    ensures var open := OpenAfter(tags, j); open != [] && open[|open| - 1] == i
  {
    OpensAscend(tags, j);
    var open := OpenAfter(tags, j);
    var last := open[|open| - 1];
    assert last in open;
    var x :| 0 <= x < |open| && open[x] == i;
  }

  lemma {:induction false} MatchCloses(tags: seq<Found>, i: nat, j: nat)
    requires Match(tags, i, j)
    ensures Closes(tags, i, j)
    decreases j - i, 0
  {
    OpensItself(tags, i);
    if i !in OpenAfter(tags, j) {
      var l := ClosedBetween(tags, i, i + 1, j);
      ClosesMatch(tags, i, l);
      assert false;
    }
    forall k: nat | i < k < j ensures k !in OpenAfter(tags, j) {
      if tags[k].closing {
        OpensAscend(tags, j);
      } else {
        var l: nat :| k < l < j && Match(tags, k, l);
        MatchCloses(tags, k, l);
        GoneFrom(tags, k, l, j);
      }
    }
    HighestIsLast(tags, i, j);
  }

  lemma {:induction false} ClosesMatch(tags: seq<Found>, i: nat, j: nat)
    requires Closes(tags, i, j)
    ensures Match(tags, i, j)
    decreases j - i, 1
  {
    OpensAscend(tags, j);
    assert i in OpenAfter(tags, j) && !tags[i].closing;
    forall k: nat | i < k < j && !tags[k].closing ensures exists l: nat :: k < l < j && Match(tags, k, l) {
      OpensItself(tags, k);
      if k in OpenAfter(tags, j) { LastIsHighest(tags, i, j, k); }
      var l := ClosedBetween(tags, k, k + 1, j);
      ClosesMatch(tags, k, l);
    }
    forall l: nat | i < l < j ensures !Match(tags, i, l) {
      if Match(tags, i, l) {
        MatchCloses(tags, i, l);
        GoneFrom(tags, i, l, j);
      }
    }
    assert Match(tags, i, j);
  }

  /** The stack of open tags finds exactly these pairs. */
  lemma {:induction false} ClosesIff(tags: seq<Found>, i: nat, j: nat)
    ensures Closes(tags, i, j) <==> Match(tags, i, j)
  {
    if Closes(tags, i, j) { ClosesMatch(tags, i, j); }
    if Match(tags, i, j) { MatchCloses(tags, i, j); }
  }

  /** What stays as it was written are the opening tags that none matches. */
  lemma {:induction false} NeverClosedIff(tags: seq<Found>, i: nat)
    ensures NeverClosed(tags, i) <==> i < |tags| && !tags[i].closing && forall j: nat :: !Match(tags, i, j)
  {
    OpensAscend(tags, |tags|);
    if i < |tags| && !tags[i].closing {
      OpensItself(tags, i);
      if i !in OpenAfter(tags, |tags|) {
        var j := ClosedBetween(tags, i, i + 1, |tags|);
        ClosesIff(tags, i, j);
      }
      if j: nat :| Match(tags, i, j) {
        ClosesIff(tags, i, j);
        GoneFrom(tags, i, j, |tags|);
      }
    }
  }
}
