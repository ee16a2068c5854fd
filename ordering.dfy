/** The ordering `std::sort` uses on a `std::pair<std::string, int>`:
    the strings lexicographically, ties broken by the integer. */
module Ordering {

  /** A list-model row before it is shown: a display name and a code. */
  type Entry = (string, int)

  /** `a <= b` for `std::string`: character by character, a proper prefix
      first. Characters compare by code point, which orders the same way as
      the UTF-8 bytes the source compares. */
  predicate StrLe(a: string, b: string)
    decreases |a|
  {
    |a| == 0 || (|b| > 0 && (a[0] < b[0] || (a[0] == b[0] && StrLe(a[1..], b[1..]))))
  }

  lemma {:induction false} StrLeTotal(a: string, b: string)
    ensures StrLe(a, b) || StrLe(b, a)
    decreases |a|
  {
    if |a| > 0 && |b| > 0 && a[0] == b[0] {
      StrLeTotal(a[1..], b[1..]);
    }
  }

  lemma {:induction false} StrLeAntisymmetric(a: string, b: string)
    requires StrLe(a, b) && StrLe(b, a)
    ensures a == b
    decreases |a|
  {
    if |a| > 0 {
      StrLeAntisymmetric(a[1..], b[1..]);
      assert a == [a[0]] + a[1..];
      assert b == [b[0]] + b[1..];
    }
  }

  lemma {:induction false} StrLeTransitive(a: string, b: string, c: string)
    requires StrLe(a, b) && StrLe(b, c)
    ensures StrLe(a, c)
    decreases |a|
  {
    if |a| > 0 && a[0] == b[0] && b[0] == c[0] {
      StrLeTransitive(a[1..], b[1..], c[1..]);
    }
  }

  /** `p <= q` for the pair: the first components decide unless equal. */
  predicate PairLe(p: Entry, q: Entry) {
    if p.0 == q.0 then p.1 <= q.1 else StrLe(p.0, q.0)
  }

  lemma PairLeTotal(p: Entry, q: Entry)
    ensures PairLe(p, q) || PairLe(q, p)
  {
    StrLeTotal(p.0, q.0);
  }

  lemma PairLeAntisymmetric(p: Entry, q: Entry)
    requires PairLe(p, q) && PairLe(q, p)
    ensures p == q
  {
    if p.0 != q.0 {
      StrLeAntisymmetric(p.0, q.0);
    }
  }

  lemma PairLeTransitive(p: Entry, q: Entry, r: Entry)
    requires PairLe(p, q) && PairLe(q, r)
    ensures PairLe(p, r)
  {
    if p.0 != q.0 && q.0 != r.0 {
      if p.0 == r.0 {
        StrLeAntisymmetric(p.0, q.0);
      } else {
        StrLeTransitive(p.0, q.0, r.0);
      }
    }
  }
}
