/** `Imp::transform`: turn a library listing of (code, name) pairs into the
    (name, code) rows of a list model, sorted the way `std::sort` sorts
    `std::pair<std::string, int>`. */
module PairTransform {
  import opened Ordering

  predicate Sorted(s: seq<Entry>) {
    forall i, j :: 0 <= i < j < |s| ==> PairLe(s[i], s[j])
  }

  /** Each (code, name) pair becomes (name, code), in input order. */
  function Swapped(data: seq<(int, string)>): (r: seq<Entry>) {
    seq(|data|, i requires 0 <= i < |data| => (data[i].1, data[i].0))
  }

  function Insert(x: Entry, s: seq<Entry>): (r: seq<Entry>) {
    if s == [] then [x]
    else if PairLe(x, s[0]) then [x] + s
    else [s[0]] + Insert(x, s[1..])
  }

  function Sort(s: seq<Entry>): (r: seq<Entry>) {
    if s == [] then [] else Insert(s[0], Sort(s[1..]))
  }

  lemma {:induction false} InsertSorted(x: Entry, s: seq<Entry>)
    requires Sorted(s)
    ensures Sorted(Insert(x, s))
    ensures multiset(Insert(x, s)) == multiset(s) + multiset{x}
  {
    if s == [] {
    } else if PairLe(x, s[0]) {
      forall j | 0 <= j < |s|
        ensures PairLe(x, s[j])
      {
        if j > 0 { PairLeTransitive(x, s[0], s[j]); }
      }
      assert s == [s[0]] + s[1..];
    } else {
      var tail := s[1..];
      InsertSorted(x, tail);
      var t := Insert(x, tail);
      PairLeTotal(x, s[0]);
      forall k | 0 <= k < |t|
        ensures PairLe(s[0], t[k])
      {
        assert t[k] in multiset(t);
        if t[k] != x {
          assert t[k] in multiset(tail);
          var j :| 0 <= j < |tail| && tail[j] == t[k];
          assert s[j + 1] == t[k];
        }
      }
      assert s == [s[0]] + tail;
    }
  }

  lemma {:induction false} SortSorted(s: seq<Entry>)
    ensures Sorted(Sort(s))
    ensures multiset(Sort(s)) == multiset(s)
  {
    if s != [] {
      SortSorted(s[1..]);
      InsertSorted(s[0], Sort(s[1..]));
      assert s == [s[0]] + s[1..];
    }
  }

  /** The transform: one (second, first) pair per input entry, ascending. */
  function Transform(data: seq<(int, string)>): (r: seq<Entry>)
    ensures Sorted(r)
    ensures multiset(r) == multiset(Swapped(data))
    ensures |r| == |data|
  {
    SortSorted(Swapped(data));
    assert |Sort(Swapped(data))| == |multiset(Sort(Swapped(data)))|;
    Sort(Swapped(data))
  }

  /** Two sorted orderings of the same entries are the same sequence: the
      pair order is total, so an unstable `std::sort` still has exactly one
      possible result. */
  lemma {:induction false} SortedPermutationUnique(a: seq<Entry>, b: seq<Entry>)
    requires Sorted(a) && Sorted(b)
    requires multiset(a) == multiset(b)
    ensures a == b
    decreases |a|
  {
    if a == [] {
      assert |multiset(b)| == 0;
    } else {
      assert b != [] by { assert a[0] in multiset(b); }
      assert a[0] in multiset(b);
      var j :| 0 <= j < |b| && b[j] == a[0];
      assert b[0] in multiset(a);
      var i :| 0 <= i < |a| && a[i] == b[0];
      assert PairLe(b[0], a[0]) by { if j > 0 { assert PairLe(b[0], b[j]); } }
      assert PairLe(a[0], b[0]) by { if i > 0 { assert PairLe(a[0], a[i]); } }
      PairLeAntisymmetric(a[0], b[0]);
      assert a == [a[0]] + a[1..];
      assert b == [b[0]] + b[1..];
      assert multiset(a) == multiset{a[0]} + multiset(a[1..]);
      assert multiset(b) == multiset{b[0]} + multiset(b[1..]);
      assert multiset(a[1..]) == multiset(a) - multiset{a[0]};
      assert multiset(b[1..]) == multiset(b) - multiset{b[0]};
      SortedPermutationUnique(a[1..], b[1..]);
    }
  }

  /** Whatever sorted arrangement of the swapped pairs the library sort
      produces, it is the transform. */
  lemma TransformIsTheSortedPermutation(data: seq<(int, string)>, out: seq<Entry>)
    requires Sorted(out)
    requires multiset(out) == multiset(Swapped(data))
    ensures out == Transform(data)
  {
    SortedPermutationUnique(out, Transform(data));
  }

  /** An entry is in the output iff it is the swap of some input entry. */
  lemma TransformMembers(data: seq<(int, string)>, e: Entry)
    ensures e in Transform(data) <==> exists i :: 0 <= i < |data| && e == (data[i].1, data[i].0)
  {
    var r := Transform(data);
    assert e in r <==> e in multiset(r);
    assert e in Swapped(data) <==> e in multiset(Swapped(data));
    if e in Swapped(data) {
      var i :| 0 <= i < |data| && Swapped(data)[i] == e;
    }
    if exists i :: 0 <= i < |data| && e == (data[i].1, data[i].0) {
      var i :| 0 <= i < |data| && e == (data[i].1, data[i].0);
      assert Swapped(data)[i] == e;
    }
  }
}
