/** Sorting options by number, and why a stable order is unique. */
module OptionOrder {

  import opened OptionWire

  predicate Sorted<V>(os: seq<CoapOption<V>>) {
    forall i, j :: 0 <= i < j < |os| ==> os[i].number <= os[j].number
  }

  /** The options with a given number, in their order of appearance. */
  function WithNumber<V>(os: seq<CoapOption<V>>, n: nat): seq<CoapOption<V>> {
    if os == [] then []
    else
      var last := os[|os| - 1];
      var front := WithNumber(os[..|os| - 1], n);
      if last.number == n then front + [last] else front
  }

  /** Insert behind every option whose number is not larger. */
  function Insert<V>(os: seq<CoapOption<V>>, o: CoapOption<V>): seq<CoapOption<V>> {
    if os == [] || os[|os| - 1].number <= o.number then os + [o]
    else Insert(os[..|os| - 1], o) + [os[|os| - 1]]
  }

  /** as_sorted_list: a stable sort by option number. */
  function SortByNumber<V>(os: seq<CoapOption<V>>): seq<CoapOption<V>> {
    if os == [] then [] else Insert(SortByNumber(os[..|os| - 1]), os[|os| - 1])
  }

  lemma WithNumberSnoc<V>(os: seq<CoapOption<V>>, o: CoapOption<V>, n: nat)
    ensures WithNumber(os + [o], n) == if o.number == n then WithNumber(os, n) + [o] else WithNumber(os, n)
  {
    assert (os + [o])[..|os|] == os;
  }

  lemma {:induction false} InsertIsPermutation<V>(os: seq<CoapOption<V>>, o: CoapOption<V>)
    ensures multiset(Insert(os, o)) == multiset(os) + multiset{o}
  {
    if !(os == [] || os[|os| - 1].number <= o.number) {
      InsertIsPermutation(os[..|os| - 1], o);
      assert os == os[..|os| - 1] + [os[|os| - 1]];
    }
  }

  lemma {:induction false} InsertKeepsSorted<V>(os: seq<CoapOption<V>>, o: CoapOption<V>)
    requires Sorted(os)
    ensures Sorted(Insert(os, o))
  {
    if !(os == [] || os[|os| - 1].number <= o.number) {
      var last, front := os[|os| - 1], os[..|os| - 1];
      InsertKeepsSorted(front, o);
      InsertIsPermutation(front, o);
      forall i | 0 <= i < |Insert(front, o)| ensures Insert(front, o)[i].number <= last.number {
        assert Insert(front, o)[i] in multiset(front) + multiset{o};
      }
    }
  }

  lemma {:induction false} InsertIsStable<V>(os: seq<CoapOption<V>>, o: CoapOption<V>, n: nat)
    requires Sorted(os)
    ensures WithNumber(Insert(os, o), n) == WithNumber(os + [o], n)
  {
    if !(os == [] || os[|os| - 1].number <= o.number) {
      var last, front := os[|os| - 1], os[..|os| - 1];
      assert os == front + [last];
      InsertIsStable(front, o, n);
      WithNumberSnoc(os, o, n);
      WithNumberSnoc(front, o, n);
      WithNumberSnoc(front, last, n);
      WithNumberSnoc(Insert(front, o), last, n);
    }
  }

  /** The result is sorted, a permutation, and keeps the order within each number. */
  lemma {:induction false} SortIsStable<V>(os: seq<CoapOption<V>>)
    ensures Sorted(SortByNumber(os))
    ensures multiset(SortByNumber(os)) == multiset(os)
    ensures forall n: nat :: WithNumber(SortByNumber(os), n) == WithNumber(os, n)
  {
    if os != [] {
      var front, last := os[..|os| - 1], os[|os| - 1];
      assert os == front + [last];
      SortIsStable(front);
      InsertKeepsSorted(SortByNumber(front), last);
      InsertIsPermutation(SortByNumber(front), last);
      forall n: nat ensures WithNumber(SortByNumber(os), n) == WithNumber(os, n) {
        InsertIsStable(SortByNumber(front), last, n);
        WithNumberSnoc(SortByNumber(front), last, n);
        WithNumberSnoc(front, last, n);
      }
    }
  }

  lemma {:induction false} WithNumberMember<V>(os: seq<CoapOption<V>>, n: nat)
    ensures forall o :: o in WithNumber(os, n) <==> o in os && o.number == n
  {
    if os != [] {
      var front := os[..|os| - 1];
      WithNumberMember(front, n);
      assert os == front + [os[|os| - 1]];
    }
  }

  /** Two sorted lists with the same options under every number are the same list. */
  lemma {:induction false} StableOrderIsUnique<V>(a: seq<CoapOption<V>>, b: seq<CoapOption<V>>)
    requires Sorted(a) && Sorted(b)
    requires forall n: nat :: WithNumber(a, n) == WithNumber(b, n)
    ensures a == b
  {
    if a == [] || b == [] {
      if b != [] {
        WithNumberMember(b, b[0].number);
      }
      if a != [] {
        WithNumberMember(a, a[0].number);
      }
    } else {
      var p, q := a[|a| - 1], b[|b| - 1];
      var n := p.number;
      assert n == q.number by {
        WithNumberMember(a, p.number);
        WithNumberMember(b, p.number);
        WithNumberMember(a, q.number);
        WithNumberMember(b, q.number);
        assert p in WithNumber(b, p.number);
        assert q in WithNumber(a, q.number);
      }
      var fa, fb := a[..|a| - 1], b[..|b| - 1];
      assert a == fa + [p] && b == fb + [q];
      forall m: nat
        ensures WithNumber(fa, m) == WithNumber(fb, m) && (m == n ==> p == q)
      {
        WithNumberSnoc(fa, p, m);
        WithNumberSnoc(fb, q, m);
        var wa, wb := WithNumber(a, m), WithNumber(b, m);
        assert wa == wb;
        if m == n {
          assert WithNumber(fa, m) == wa[..|wa| - 1] && WithNumber(fb, m) == wb[..|wb| - 1];
          assert p == wa[|wa| - 1] && q == wb[|wb| - 1];
        }
      }
      assert WithNumber(fa, n) == WithNumber(fb, n) && p == q;
      StableOrderIsUnique(fa, fb);
    }
  }

  lemma SortedIsUnchanged<V>(os: seq<CoapOption<V>>)
    requires Sorted(os)
    ensures SortByNumber(os) == os
  {
    SortIsStable(os);
    StableOrderIsUnique(SortByNumber(os), os);
  }
}
