/**
 `ByName` (main.go:54-58): the ordering of virtual machines by name that
 `sort.Sort` uses to put the snapshot in a deterministic order.
 */
module ByName {
  import opened Inventory

  /**
   Go's `<` on strings: lexicographic order. Go compares UTF-8 bytes; for
   valid UTF-8 that is the same order as comparing code points one by one.
   */
  predicate NameLess(a: string, b: string) {
    if a == [] then b != []
    else if b == [] then false
    else if a[0] != b[0] then a[0] < b[0]
    else NameLess(a[1..], b[1..])
  }

  lemma {:induction false} NameLessIrreflexive(a: string)
    ensures !NameLess(a, a)
  {
    if a != [] {
      NameLessIrreflexive(a[1..]);
    }
  }

  lemma {:induction false} NameLessTransitive(a: string, b: string, c: string)
    requires NameLess(a, b) && NameLess(b, c)
    ensures NameLess(a, c)
  {
    if a != [] && b != [] && c != [] && a[0] == b[0] == c[0] {
      NameLessTransitive(a[1..], b[1..], c[1..]);
    }
  }

  /** Any two names are ordered one way or the other, or are equal. */
  lemma {:induction false} NameLessTotal(a: string, b: string)
    ensures NameLess(a, b) || a == b || NameLess(b, a)
  {
    if a != [] && b != [] && a[0] == b[0] {
      NameLessTotal(a[1..], b[1..]);
      if a[1..] == b[1..] {
        assert a == [a[0]] + a[1..] && b == [b[0]] + b[1..];
      }
    }
  }

  /** `ByName.Len`. */
  function Len(n: array<VirtualMachine>): nat
    reads n
  {
    n.Length
  }

  /** `ByName.Less`: the machine at `i` sorts before the machine at `j`. */
  predicate Less(n: array<VirtualMachine>, i: int, j: int)
    requires 0 <= i < n.Length && 0 <= j < n.Length
    reads n
  {
    NameLess(n[i].name, n[j].name)
  }

  /** The names are non-decreasing: no machine sorts before an earlier one. */
  ghost predicate SortedByName(s: seq<VirtualMachine>) {
    forall i, j :: 0 <= i < j < |s| ==> !NameLess(s[j].name, s[i].name)
  }

  /** `ByName.Swap`: exchanges two machines in place. */
  method Swap(n: array<VirtualMachine>, i: int, j: int)
    requires 0 <= i < n.Length && 0 <= j < n.Length
    modifies n
    ensures n[i] == old(n[j]) && n[j] == old(n[i])
    ensures forall k :: 0 <= k < n.Length && k != i && k != j ==> n[k] == old(n[k])
    ensures multiset(n[..]) == old(multiset(n[..]))
  {
    n[i], n[j] := n[j], n[i];
  }

  /** The first `i` machines are in name order. */
  ghost predicate SortedPrefix(s: seq<VirtualMachine>, i: int) {
    forall p, q :: 0 <= p < q < i && q < |s| ==> !NameLess(s[q].name, s[p].name)
  }

  /** No machine from position `i` on sorts before a machine in the first `i`. */
  ghost predicate Partitioned(s: seq<VirtualMachine>, i: int) {
    forall p, q :: 0 <= p < i <= q < |s| ==> !NameLess(s[q].name, s[p].name)
  }

  /** Swapping the least remaining machine into position `i` extends the sorted, partitioned prefix by one. */
  lemma SelectionStep(before: seq<VirtualMachine>, after: seq<VirtualMachine>, i: int, m: int)
    requires 0 <= i <= m < |before|
    requires after == before[i := before[m]][m := before[i]]
    requires SortedPrefix(before, i) && Partitioned(before, i)
    requires forall q :: i <= q < |before| ==> !NameLess(before[q].name, before[m].name)
    ensures SortedPrefix(after, i + 1) && Partitioned(after, i + 1)
  {
    forall p, q | 0 <= p <= i < q < |after|
      ensures !NameLess(after[q].name, after[p].name)
    {
      var from := if q == m then i else q;
      assert after[q] == before[from];
      if p == i {
        assert after[p] == before[m];
      } else {
        assert after[p] == before[p];
      }
    }
  }

  /** The position of a machine with the least name among positions `i` onwards. */
  method LeastFrom(n: array<VirtualMachine>, i: int) returns (m: int)
    requires 0 <= i < n.Length
    ensures i <= m < n.Length
    ensures forall q :: i <= q < n.Length ==> !Less(n, q, m)
  {
    m := i;
    NameLessIrreflexive(n[i].name);
    for j := i + 1 to Len(n)
      invariant i <= m < j
      invariant forall q :: i <= q < j ==> !Less(n, q, m)
    {
      if Less(n, j, m) {
        forall q | i <= q < j
          ensures !Less(n, q, j)
        {
          if Less(n, q, j) {
            NameLessTransitive(n[q].name, n[j].name, n[m].name);
            assert Less(n, q, m);
          }
        }
        NameLessIrreflexive(n[j].name);
        m := j;
      }
    }
  }

  /**
   `sort.Sort(ByName(vms))`. Go's sorting algorithm is not part of this model;
   it is stood in for by a selection sort that, like `sort.Sort`, only uses
   `Len`, `Less` and `Swap`. What `sort.Sort` promises, and what is stated
   here, is that the result is ordered by `Less` and is a permutation of the
   input; the relative order of machines with equal names is unspecified.
   */
  method SortByName(n: array<VirtualMachine>)
    modifies n
    ensures SortedByName(n[..])
    ensures multiset(n[..]) == old(multiset(n[..]))
  {
    var i := 0;
    while i < Len(n)
      invariant 0 <= i <= n.Length
      invariant SortedPrefix(n[..], i) && Partitioned(n[..], i)
      invariant multiset(n[..]) == old(multiset(n[..]))
    {
      var m := LeastFrom(n, i);
      ghost var before := n[..];
      assert forall q :: i <= q < |before| ==> !NameLess(before[q].name, before[m].name) by {
        forall q | i <= q < |before| ensures !NameLess(before[q].name, before[m].name) {
          assert !Less(n, q, m);
        }
      }
      Swap(n, i, m);
      assert n[..] == before[i := before[m]][m := before[i]];
      SelectionStep(before, n[..], i, m);
      i := i + 1;
    }
  }
}
