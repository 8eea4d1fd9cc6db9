/** The arithmetic of weighted rotation, on plain sequences. */
module Rotation {
  import opened Basics

  const TWO_63 := 0x8000_0000_0000_0000
  const TWO_64 := 0x1_0000_0000_0000_0000

  /** Reading a number as a signed 64-bit integer. */
  function ToInt64(x: int): int {
    var low := x % TWO_64;
    if low < TWO_63 then low else low - TWO_64
  }

  /** Go's remainder, which takes the sign of the dividend. */
  function GoRem(a: int, n: nat): int
    requires n > 0
  {
    if a >= 0 then a % n else -((-a) % n)
  }

  /** The index `(int(start)+i) % n` as the machine computes it. */
  function MachineIndex(start: nat, i: nat, n: nat): int
    requires n > 0
  {
    GoRem(ToInt64(ToInt64(start) + i), n)
  }

  /** As long as the 63-bit sum does not overflow, the machine index is `(start+i) % n`.  From 2^63 to 2^64
      it is negative, and indexing panics, unless `n` divides the wrapped sum.  Past 2^64 it starts over. */
  lemma MachineIndexIsRotation(start: nat, i: nat, n: nat)
    requires n > 0 && start < TWO_64 && i < TWO_63
    ensures start + i < TWO_63 ==> MachineIndex(start, i, n) == (start + i) % n
    ensures TWO_63 <= start + i < TWO_64 ==>
              (0 <= MachineIndex(start, i, n) < n <==> (TWO_64 - (start + i)) % n == 0)
    ensures TWO_64 <= start + i ==> MachineIndex(start, i, n) == (start + i - TWO_64) % n
  {
    if start + i < TWO_63 {
      assert ToInt64(start) == start && ToInt64(start + i) == start + i;
    } else {
      WrappedSum(start, i);
    }
  }

  /** The signed sum, once it has overflowed. */
  lemma WrappedSum(start: nat, i: nat)
    requires start < TWO_64 && i < TWO_63 && start + i >= TWO_63
    ensures ToInt64(ToInt64(start) + i) == start + i - TWO_64
  {
    if start < TWO_63 {
      assert ToInt64(start) == start;
    } else {
      assert ToInt64(start) == start - TWO_64;
      if start + i < TWO_64 {
        assert (start - TWO_64 + i) % TWO_64 == start + i;
      }
    }
  }

  /** So a pool of three panics when its counter reaches 2^63. */
  lemma CounterOverflowPanics()
    ensures MachineIndex(TWO_63, 0, 3) < 0
  {
    MachineIndexIsRotation(TWO_63, 0, 3);
    assert (TWO_64 - TWO_63) % 3 == 2;
  }

  /** `entries` read cyclically from position `start`. */
  function Rotated<T>(entries: seq<T>, start: nat): (r: seq<T>)
    requires entries != []
    ensures |r| == |entries|
  {
    entries[start % |entries|..] + entries[..start % |entries|]
  }

  lemma RotatedAt<T>(entries: seq<T>, start: nat, i: nat)
    requires entries != [] && i < |entries|
    ensures Rotated(entries, start)[i] == entries[(start + i) % |entries|]
  {
    var n := |entries|;
    var s := start % n;
    assert start == start / n * n + s;
    if s + i < n {
      ModShift(start / n, s + i, n);
    } else {
      ModShift(start / n + 1, s + i - n, n);
      assert (start / n + 1) * n == start / n * n + n;
    }
    assert Rotated(entries, start)[i] == if s + i < n then entries[s + i] else entries[s + i - n];
  }

  /** In range, the machine reads the rotation in order. */
  lemma MachineReadsRotation<T>(entries: seq<T>, start: nat, i: nat)
    requires entries != [] && i < |entries| && start + |entries| < TWO_63
    ensures 0 <= MachineIndex(start, i, |entries|) < |entries|
    ensures entries[MachineIndex(start, i, |entries|)] == Rotated(entries, start)[i]
  {
    MachineIndexIsRotation(start, i, |entries|);
    RotatedAt(entries, start, i);
  }

  lemma ModShift(k: nat, r: nat, n: nat)
    requires r < n
    ensures (k * n + r) % n == r
  {
    var x := k * n + r;
    var q := x / n;
    assert x == q * n + x % n;
    Grows(q, k, n);
    Grows(k, q, n);
  }

  lemma {:induction false} Grows(a: nat, b: nat, n: nat)
    ensures a < b ==> a * n + n <= b * n
    decreases b
  {
    if a < b {
      assert b * n == (b - 1) * n + n;
      Grows(a, b - 1, n);
    }
  }

  /** What `next` must return at counter value `start`: the first in-service entry cyclically at or
      after it, or `fallback` when none is in service. */
  ghost predicate IsNext<T>(entries: seq<T>, healthy: set<T>, fallback: T, start: nat, chosen: T)
    requires entries != []
  {
    || (exists i :: FirstHealthyAt(entries, healthy, start, i) && chosen == Rotated(entries, start)[i])
    || ((forall i :: 0 <= i < |entries| ==> entries[i] !in healthy) && chosen == fallback)
  }

  ghost predicate FirstHealthyAt<T>(entries: seq<T>, healthy: set<T>, start: nat, i: int)
    requires entries != []
  {
    && 0 <= i < |entries|
    && Rotated(entries, start)[i] in healthy
    && forall j :: 0 <= j < i ==> Rotated(entries, start)[j] !in healthy
  }

  lemma FoundIsNext<T>(entries: seq<T>, healthy: set<T>, fallback: T, start: nat, i: int)
    requires entries != [] && FirstHealthyAt(entries, healthy, start, i)
    ensures IsNext(entries, healthy, fallback, start, Rotated(entries, start)[i])
  {
  }

  lemma FallbackIsNext<T>(entries: seq<T>, healthy: set<T>, fallback: T, start: nat)
    requires entries != [] && forall j :: 0 <= j < |entries| ==> Rotated(entries, start)[j] !in healthy
    ensures IsNext(entries, healthy, fallback, start, fallback)
    ensures forall e :: e in entries ==> e !in healthy
  {
    var s := start % |entries|;
    forall i | 0 <= i < |entries| ensures entries[i] !in healthy {
      assert entries[i] == Rotated(entries, start)[if i >= s then i - s else i + (|entries| - s)];
    }
  }

  /** The distinct in-service entries, in the order they first occur. */
  function InOrder<T(==)>(entries: seq<T>, healthy: set<T>): seq<T> {
    if entries == [] then []
    else if entries[0] in healthy then [entries[0]] + InOrder(entries[1..], healthy - {entries[0]})
    else InOrder(entries[1..], healthy)
  }

  /** `InOrder` lists every in-service entry once. */
  lemma {:induction false} InOrderIsComplete<T>(entries: seq<T>, healthy: set<T>)
    ensures forall e :: e in InOrder(entries, healthy) <==> e in healthy && e in entries
    ensures Distinct(InOrder(entries, healthy))
  {
    if entries != [] {
      var rest := if entries[0] in healthy then healthy - {entries[0]} else healthy;
      InOrderIsComplete(entries[1..], rest);
      assert forall e :: e in entries <==> e == entries[0] || e in entries[1..];
      if entries[0] in healthy {
        var tail := InOrder(entries[1..], rest);
        assert entries[0] !in tail;
        assert forall k :: 0 <= k < |tail| ==> tail[k] in tail;
      }
    }
  }

  ghost predicate Precedes<T>(s: seq<T>, x: T, y: T) {
    exists p, q :: 0 <= p < q < |s| && s[p] == x && s[q] == y
  }

  /** And in the order in which they first occur. */
  lemma {:induction false} InOrderKeepsOrder<T>(entries: seq<T>, healthy: set<T>, i: nat, j: nat)
    requires i < j < |entries| && entries[i] in healthy && entries[j] in healthy
    requires entries[j] !in entries[..j]
    ensures Precedes(InOrder(entries, healthy), entries[i], entries[j])
    decreases |entries|
  {
    var rest := if entries[0] in healthy then healthy - {entries[0]} else healthy;
    var tail := InOrder(entries[1..], rest);
    var order := InOrder(entries, healthy);
    assert entries[0] in entries[..j];
    InOrderIsComplete(entries[1..], rest);
    if entries[i] == entries[0] {
      assert entries[..j][i] == entries[i] && entries[j] != entries[0];
      assert entries[1..][j - 1] == entries[j] && entries[j] in rest;
      assert entries[j] in tail;
      var q :| 0 <= q < |tail| && tail[q] == entries[j];
      assert order[0] == entries[i] && order[q + 1] == entries[j];
    } else {
      assert forall k :: 0 <= k < j - 1 ==> entries[1..][k] == entries[..j][k + 1];
      InOrderKeepsOrder(entries[1..], rest, i - 1, j - 1);
      var p, q :| 0 <= p < q < |tail| && tail[p] == entries[i] && tail[q] == entries[j];
      if entries[0] in healthy {
        assert order[p + 1] == entries[i] && order[q + 1] == entries[j];
      }
    }
  }

  /** With every entry in service, a full round of `|entries|` consecutive calls returns each entry
      exactly as often as it is listed, wherever the counter stands. */
  lemma RoundIsFair<T>(entries: seq<T>, healthy: set<T>, fallback: T, start: nat, picks: seq<T>)
    requires entries != [] && |picks| == |entries|
    requires forall e :: e in entries ==> e in healthy
    requires forall k :: 0 <= k < |picks| ==> IsNext(entries, healthy, fallback, start + k, picks[k])
    ensures picks == Rotated(entries, start)
    ensures multiset(picks) == multiset(entries)
  {
    forall k | 0 <= k < |picks| ensures picks[k] == Rotated(entries, start)[k] {
      RotatedAt(entries, start + k, 0);
      RotatedAt(entries, start, k);
      assert Rotated(entries, start + k)[0] in entries;
      assert entries[0] in entries;
      assert IsNext(entries, healthy, fallback, start + k, picks[k]);
    }
    var s := start % |entries|;
    assert entries == entries[..s] + entries[s..];
  }
}
