/** Singly linked lists: a map of `next` links followed through a sequence of nodes. */
module Links {
  import opened Arith

  const NULL: int := -1

  /** The node after t. */
  function Follow(next: map<nat, int>, t: nat): (n: int) {
    if t in next then next[t] else NULL
  }

  function After(list: seq<nat>, i: nat, end: int): (n: int) {
    if i + 1 < |list| then list[i + 1] else end
  }

  /** Following `next` through the nodes of `list` ends at `end`. */
  ghost predicate Path(next: map<nat, int>, list: seq<nat>, end: int) {
    forall i {:trigger Follow(next, list[i])} :: 0 <= i < |list| ==> Follow(next, list[i]) == After(list, i, end)
  }

  /** From `head` through the list to its end. */
  ghost predicate List(next: map<nat, int>, head: int, list: seq<nat>) {
    head == (if list == [] then NULL else list[0]) && Path(next, list, NULL)
  }

  lemma PathFrame(next: map<nat, int>, next': map<nat, int>, list: seq<nat>, end: int)
    requires Path(next, list, end) && forall t :: t in list ==> Follow(next', t) == Follow(next, t)
    ensures Path(next', list, end)
  {
    forall i | 0 <= i < |list| ensures Follow(next', list[i]) == After(list, i, end) {
      assert Follow(next, list[i]) == After(list, i, end);
    }
  }

  /** Two paths join when the first ends where the second starts. */
  lemma PathJoin(next: map<nat, int>, a: seq<nat>, b: seq<nat>, end: int)
    requires b != [] && Path(next, a, b[0]) && Path(next, b, end)
    ensures Path(next, a + b, end)
  {
    var l := a + b;
    forall i | 0 <= i < |l| ensures Follow(next, l[i]) == After(l, i, end) {
      if i < |a| {
        assert Follow(next, a[i]) == After(a, i, b[0]);
      } else {
        assert Follow(next, b[i - |a|]) == After(b, i - |a|, end);
      }
    }
  }

  lemma PathSplit(next: map<nat, int>, list: seq<nat>, k: nat, end: int)
    requires Path(next, list, end) && k < |list|
    ensures Path(next, list[..k], list[k]) && Path(next, list[k..], end)
  {
    forall i | 0 <= i < k ensures Follow(next, list[..k][i]) == After(list[..k], i, list[k]) {
      assert Follow(next, list[i]) == After(list, i, end);
    }
    forall i | 0 <= i < |list| - k ensures Follow(next, list[k..][i]) == After(list[k..], i, end) {
      assert Follow(next, list[k + i]) == After(list, k + i, end);
    }
  }

  /** Redirecting the last node of a path redirects the path. */
  lemma PathEnd(next: map<nat, int>, list: seq<nat>, end: int, end': int)
    requires list != [] && Path(next, list, end) && Distinct(list)
    ensures Path(next[list[|list| - 1] := end'], list, end')
  {
    var next' := next[list[|list| - 1] := end'];
    forall i | 0 <= i < |list| ensures Follow(next', list[i]) == After(list, i, end') {
      assert Follow(next, list[i]) == After(list, i, end);
    }
  }

  lemma ListPush(next: map<nat, int>, head: int, list: seq<nat>, t: nat)
    requires List(next, head, list) && t !in list
    ensures List(next[t := head], t, [t] + list)
  {
    PathFrame(next, next[t := head], list, NULL);
    if list != [] {
      PathJoin(next[t := head], [t], list, NULL);
    } else {
      assert [t] + list == [t];
    }
  }

  lemma LastApart(q: seq<nat>, k: nat)
    requires Distinct(q) && 0 < k <= |q|
    ensures q[k - 1] !in q[k..]
  {
    forall i | 0 <= i < |q| - k ensures q[k..][i] != q[k - 1] { assert q[k..][i] == q[k + i]; }
  }

  /** Linking a node in behind position k - 1. */
  lemma PathInsert(next: map<nat, int>, q: seq<nat>, k: nat, me: nat)
    requires Path(next, q, NULL) && Distinct(q) && me !in q && 0 < k <= |q|
    ensures Path(next[me := Follow(next, q[k - 1])][q[k - 1] := me], q[..k] + ([me] + q[k..]), NULL)
  {
    var a, b, last := q[..k], q[k..], q[k - 1];
    var after := Follow(next, last);
    var next' := next[me := after][last := me];
    assert q == a + b && last == a[k - 1];
    assert Follow(next, q[k - 1]) == After(q, k - 1, NULL);
    PathPrefix(next, q, k, after);
    PathFrame(next, next[me := after], a, after);
    PathEnd(next[me := after], a, after, me);
    assert forall t :: t in b ==> t in q;
    LastApart(q, k);
    PathSuffix(next, q, k);
    PathFrame(next, next', b, NULL);
    if b != [] { PathJoin(next', [me], b, NULL); } else { assert [me] + b == [me]; }
    PathJoin(next', a, [me] + b, NULL);
  }

  lemma PathPrefix(next: map<nat, int>, q: seq<nat>, k: nat, end: int)
    requires Path(next, q, NULL) && 0 < k <= |q| && Follow(next, q[k - 1]) == end
    ensures Path(next, q[..k], end)
  {
    forall i | 0 <= i < k ensures Follow(next, q[..k][i]) == After(q[..k], i, end) {
      assert Follow(next, q[i]) == After(q, i, NULL);
    }
  }

  lemma PathSuffix(next: map<nat, int>, q: seq<nat>, k: nat)
    requires Path(next, q, NULL) && k <= |q|
    ensures Path(next, q[k..], NULL)
  {
    if k < |q| { PathSplit(next, q, k, NULL); }
  }

  /** Pointing a node past its successor takes the successor out. */
  lemma PathRemove(next: map<nat, int>, list: seq<nat>, k: nat, end: int)
    requires Path(next, list, end) && Distinct(list) && 0 < k < |list|
    ensures Path(next[list[k - 1] := Follow(next, list[k])], list[..k] + list[k + 1..], end)
  {
    var last := list[k - 1];
    var next' := next[last := Follow(next, list[k])];
    var r := list[..k] + list[k + 1..];
    forall i | 0 <= i < |r| ensures Follow(next', r[i]) == After(r, i, end) {
      var j := if i < k then i else i + 1;
      assert r[i] == list[j] && Follow(next, list[j]) == After(list, j, end);
      assert Follow(next, list[k]) == After(list, k, end);
      assert i == k - 1 ==> r[i] == last;
      assert i != k - 1 ==> r[i] != last;
    }
  }
}
