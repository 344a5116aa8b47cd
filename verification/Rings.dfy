/** The doubly linked rings of the two caches (bcache.head in kernel/bio.c, root in
    kernel/fat32.c): node 0 is the head, and the other nodes lie on the ring in order of use. */
module Rings {

  type Links = seq<int>

  ghost predicate Distinct(s: seq<int>)
  {
    forall i, j :: 0 <= i < j < |s| ==> s[i] != s[j]
  }

  /** Going round from the head meets the nodes of c. */
  ghost predicate Round(next: Links, prev: Links, c: seq<int>)
  {
    && |next| == |prev| && |c| > 0 && c[0] == 0 && Distinct(c)
    && (forall i :: 0 <= i < |c| ==> 0 <= c[i] < |next|)
    && (forall i, j :: 0 <= i && j == i + 1 && j < |c| ==> next[c[i]] == c[j] && prev[c[j]] == c[i])
    && next[c[|c| - 1]] == 0 && prev[0] == c[|c| - 1]
  }

  /** The ring holds exactly the nodes 1 .. n, most recently used first. */
  ghost predicate Ring(next: Links, prev: Links, order: seq<int>, n: int)
  {
    && |next| == n + 1 && Round(next, prev, [0] + order)
    && (forall x :: 1 <= x <= n <==> x in order)
  }

  lemma OnRing(next: Links, prev: Links, order: seq<int>, n: int)
    requires Ring(next, prev, order, n)
    ensures forall x :: 1 <= x <= n ==> x in order
  {
  }

  function Without(s: seq<int>, b: int): (r: seq<int>)
    ensures b !in r
    ensures forall x :: x in r <==> x in s && x != b
  {
    if s == [] then [] else if s[0] == b then Without(s[1..], b) else [s[0]] + Without(s[1..], b)
  }

  function ToFront(order: seq<int>, b: int): seq<int>
  {
    [b] + Without(order, b)
  }

  /** How many nodes of s come before x. */
  function Place(s: seq<int>, x: int): nat
  {
    if s == [] || s[0] == x then 0 else 1 + Place(s[1..], x)
  }

  lemma {:induction false} PlaceOf(s: seq<int>, x: int)
    requires x in s
    ensures Place(s, x) < |s| && s[Place(s, x)] == x
  {
    if s[0] != x { PlaceOf(s[1..], x); }
  }

  /** Taking a node out does not change which of two others comes first. */
  lemma {:induction false} WithoutKeeps(s: seq<int>, b: int, x: int, y: int)
    requires x in s && y in s && x != b && y != b
    ensures Place(Without(s, b), x) < Place(Without(s, b), y) <==> Place(s, x) < Place(s, y)
  {
    if s[0] == b {
      WithoutKeeps(s[1..], b, x, y);
    } else {
      var r := Without(s, b);
      assert r[1..] == Without(s[1..], b);
      if s[0] != x && s[0] != y {
        WithoutKeeps(s[1..], b, x, y);
      }
    }
  }

  /** Moving b to the front puts it before all others and keeps the order of those. */
  lemma ToFrontKeeps(s: seq<int>, b: int, x: int, y: int)
    requires x in s && y in s && b in s
    ensures x != b && y != b ==> (Place(ToFront(s, b), x) < Place(ToFront(s, b), y) <==> Place(s, x) < Place(s, y))
    ensures y != b ==> Place(ToFront(s, b), b) < Place(ToFront(s, b), y)
  {
    var r := ToFront(s, b);
    assert r[1..] == Without(s, b);
    if x != b && y != b { WithoutKeeps(s, b, x, y); }
  }

  lemma {:induction false} WithoutSplit(s: seq<int>, k: int)
    requires 0 <= k < |s| && Distinct(s)
    ensures Without(s, s[k]) == s[..k] + s[k + 1..]
  {
    if k == 0 {
      WithoutNone(s[1..], s[0]);
    } else {
      WithoutSplit(s[1..], k - 1);
      assert s[..k] == [s[0]] + s[1..][..k - 1];
    }
  }

  lemma {:induction false} WithoutNone(s: seq<int>, b: int)
    requires b !in s
    ensures Without(s, b) == s
  {
    if s != [] { WithoutNone(s[1..], b); }
  }

  /** Joining the two neighbours of a node takes it out of the ring. */
  lemma Unlinked(next: Links, prev: Links, c: seq<int>, k: int)
    requires Round(next, prev, c) && 1 <= k < |c|
    ensures var b := c[k];
      0 <= b < |next| && 0 <= next[b] < |prev| && 0 <= prev[b] < |next|
      && Round(next[prev[b] := next[b]], prev[next[b] := prev[b]], c[..k] + c[k + 1..])
  {
    var b := c[k];
    assert prev[b] == c[k - 1];
    assert next[b] == if k + 1 < |c| then c[k + 1] else 0;
    var c' := c[..k] + c[k + 1..];
    var next', prev' := next[prev[b] := next[b]], prev[next[b] := prev[b]];
    forall i, j | 0 <= i && j == i + 1 && j < |c'| ensures next'[c'[i]] == c'[j] && prev'[c'[j]] == c'[i] {
      if j < k {
        assert c'[i] == c[i] && c'[j] == c[j];
      } else if i >= k {
        assert c'[i] == c[i + 1] && c'[j] == c[j + 1];
      } else {
        assert c'[i] == c[k - 1] && c'[j] == c[k + 1];
      }
    }
  }

  /** Linking a node behind the head and before what was first puts it at the front of the ring. */
  lemma Pushed(next: Links, prev: Links, c: seq<int>, b: int)
    requires Round(next, prev, c) && 0 < b < |next| && b !in c
    ensures 0 <= next[0] < |prev|
    ensures Round(next[b := next[0]][0 := b], prev[b := 0][next[0] := b], [0, b] + c[1..])
  {
    assert next[0] == if 1 < |c| then c[1] else 0;
    var c' := [0, b] + c[1..];
    var next', prev' := next[b := next[0]][0 := b], prev[b := 0][next[0] := b];
    forall i, j | 0 <= i && j == i + 1 && j < |c'| ensures next'[c'[i]] == c'[j] && prev'[c'[j]] == c'[i] {
      if i >= 2 {
        assert c'[i] == c[i - 1] && c'[j] == c[j - 1];
      }
    }
  }

  lemma TakenOut(order: seq<int>, b: int)
    requires Distinct([0] + order) && b in order
    ensures var k := Place(order, b) + 1;
      1 <= k < |[0] + order| && ([0] + order)[k] == b && ([0] + order)[..k] + ([0] + order)[k + 1..] == [0] + Without(order, b)
  {
    var c := [0] + order;
    PlaceOf(order, b);
    var k := Place(order, b) + 1;
    assert Distinct(order) by {
      assert forall i :: 0 <= i < |order| ==> order[i] == c[i + 1];
    }
    WithoutSplit(order, k - 1);
    assert c[..k] == [0] + order[..k - 1] && c[k + 1..] == order[k..];
  }

  lemma SameSize(next: Links, prev: Links, order: seq<int>, n: int)
    requires Ring(next, prev, order, n)
    ensures |prev| == n + 1
  {
  }

  lemma InRange(next: Links, prev: Links, order: seq<int>, n: int, b: int)
    requires Ring(next, prev, order, n) && 1 <= b <= n
    ensures Distinct([0] + order) && b in order
  {
  }

  /** The node's neighbours are joined. */
  lemma TakenFrom(next: Links, prev: Links, order: seq<int>, n: int, b: int)
    requires Ring(next, prev, order, n) && 1 <= b <= n
    ensures 0 <= next[b] <= n && 0 <= prev[b] <= n
    ensures Round(next[prev[b] := next[b]], prev[next[b] := prev[b]], [0] + Without(order, b))
  {
    InRange(next, prev, order, n, b);
    TakenOut(order, b);
    hide Round, Without, Place;
    Unlinked(next, prev, [0] + order, Place(order, b) + 1);
  }

  /** The node is put behind the head. */
  lemma PutInFront(next: Links, prev: Links, order: seq<int>, n: int, b: int)
    requires Round(next, prev, [0] + Without(order, b)) && |next| == |prev| == n + 1 && 1 <= b <= n
    ensures 0 <= next[0] <= n
    ensures Round(next[b := next[0]][0 := b], prev[b := 0][next[0] := b], [0] + ToFront(order, b))
  {
    hide Round;
    var c := [0] + Without(order, b);
    Pushed(next, prev, c, b);
    assert [0, b] + c[1..] == [0] + ToFront(order, b);
  }

  /** The six assignments of eput and brelse move a node to the front of the ring. */
  lemma MovedToFront(next: Links, prev: Links, order: seq<int>, n: int, b: int)
    requires Ring(next, prev, order, n) && 1 <= b <= n
    ensures 0 <= next[b] <= n && 0 <= prev[b] <= n
    ensures var next1, prev1 := next[prev[b] := next[b]], prev[next[b] := prev[b]];
      0 <= next1[0] <= n && Ring(next1[b := next1[0]][0 := b], prev1[b := 0][next1[0] := b], ToFront(order, b), n)
  {
    hide Round;
    TakenFrom(next, prev, order, n, b);
    SameSize(next, prev, order, n);
    PutInFront(next[prev[b] := next[b]], prev[next[b] := prev[b]], order, n, b);
  }

  /** Following next from the head runs through the order, following prev runs back. */
  lemma Along(next: Links, prev: Links, order: seq<int>, n: int, i: int)
    requires Ring(next, prev, order, n) && 0 <= i < |order|
    ensures 1 <= order[i] <= n && 1 <= order[0] && 1 <= order[|order| - 1]
    ensures (i + 1 < |order| ==> 1 <= order[i + 1]) && (i > 0 ==> 1 <= order[i - 1])
    ensures next[order[i]] == (if i + 1 < |order| then order[i + 1] else 0)
    ensures prev[order[i]] == (if i > 0 then order[i - 1] else 0)
    ensures next[0] == order[0] && prev[0] == order[|order| - 1]
  {
    var c := [0] + order;
    assert order[i] == c[i + 1] && order[i] in order && order[0] in order && order[|order| - 1] in order;
    assert i + 1 < |order| ==> order[i + 1] in order;
    assert i > 0 ==> order[i - 1] in order;
    assert i + 1 < |order| ==> order[i + 1] == c[i + 2];
    assert i > 0 ==> order[i - 1] == c[i];
    assert next[c[0]] == c[1] && order[0] == c[1];
    assert order[|order| - 1] == c[|c| - 1];
  }

  lemma NoNodes(next: Links, prev: Links, order: seq<int>, n: int)
    requires Ring(next, prev, order, n) && order == []
    ensures next[0] == 0 && prev[0] == 0
  {
    assert [0] + order == [0];
  }

  lemma First(next: Links, prev: Links, order: seq<int>, n: int)
    requires Ring(next, prev, order, n)
    ensures next[0] == (if |order| > 0 then order[0] else 0) && (next[0] == 0 ==> |order| == 0)
  {
    if |order| > 0 { Along(next, prev, order, n, 0); } else { NoNodes(next, prev, order, n); }
  }

  lemma Last(next: Links, prev: Links, order: seq<int>, n: int)
    requires Ring(next, prev, order, n)
    ensures prev[0] == (if |order| > 0 then order[|order| - 1] else 0) && (prev[0] == 0 ==> |order| == 0)
  {
    if |order| > 0 { Along(next, prev, order, n, 0); } else { NoNodes(next, prev, order, n); }
  }

  lemma PlaceAt(next: Links, prev: Links, order: seq<int>, n: int, i: int)
    requires Ring(next, prev, order, n) && 0 <= i < |order|
    ensures Place(order, order[i]) == i
  {
    PlaceOf(order, order[i]);
    var c := [0] + order;
    assert c[Place(order, order[i]) + 1] == c[i + 1];
  }
}
