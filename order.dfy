/** Python's ordering of strings (code point by code point, a proper prefix
    first) and of `(str, str)` tuples (first field, then second), and
    `sorted(set(entries))` over such tuples. */
module Order {

  type Entry = (string, string)

  /** `a < b` on Python strings. */
  predicate StrLess(a: string, b: string) {
    if |a| == 0 then |b| > 0
    else if |b| == 0 then false
    else a[0] < b[0] || (a[0] == b[0] && StrLess(a[1..], b[1..]))
  }

  /** `x < y` on Python tuples of two strings. */
  predicate EntryLess(x: Entry, y: Entry) {
    StrLess(x.0, y.0) || (x.0 == y.0 && StrLess(x.1, y.1))
  }

  lemma {:induction false} StrLessIrreflexive(a: string)
    ensures !StrLess(a, a)
    decreases |a|
  {
    if |a| > 0 { StrLessIrreflexive(a[1..]); }
  }

  lemma {:induction false} StrLessTransitive(a: string, b: string, c: string)
    requires StrLess(a, b) && StrLess(b, c)
    ensures StrLess(a, c)
    decreases |a|
  {
    if |a| > 0 && |b| > 0 && |c| > 0 && a[0] == b[0] == c[0] {
      StrLessTransitive(a[1..], b[1..], c[1..]);
    }
  }

  /** Any two different strings are ordered one way round. */
  lemma {:induction false} StrLessTotal(a: string, b: string)
    requires a != b
    ensures StrLess(a, b) || StrLess(b, a)
    decreases |a|
  {
    if |a| > 0 && |b| > 0 && a[0] == b[0] {
      assert a == [a[0]] + a[1..] && b == [b[0]] + b[1..];
      StrLessTotal(a[1..], b[1..]);
    }
  }

  /** Every non-empty set of strings has a least member, so `sorted` can
      take them one by one from the smallest. */
  lemma {:induction false} LeastExists(s: set<string>)
    requires s != {}
    ensures exists p :: p in s && forall q :: q in s && q != p ==> StrLess(p, q)
    decreases |s|
  {
    var x :| x in s;
    var rest := s - {x};
    if rest == {} {
      assert s == {x};
    } else {
      LeastExists(rest);
      var m :| m in rest && forall q :: q in rest && q != m ==> StrLess(m, q);
      StrLessTotal(x, m);
      if StrLess(x, m) {
        forall q | q in s && q != x ensures StrLess(x, q) {
          if q != m { StrLessTransitive(x, m, q); }
        }
      } else {
        forall q | q in s && q != m ensures StrLess(m, q) {
          if q != x { assert q in rest; }
        }
      }
    }
  }

  lemma EntryLessIrreflexive(x: Entry)
    ensures !EntryLess(x, x)
  {
    StrLessIrreflexive(x.0);
    StrLessIrreflexive(x.1);
  }

  lemma EntryLessTransitive(x: Entry, y: Entry, z: Entry)
    requires EntryLess(x, y) && EntryLess(y, z)
    ensures EntryLess(x, z)
  {
    StrLessIrreflexive(y.0);
    if StrLess(x.0, y.0) && StrLess(y.0, z.0) { StrLessTransitive(x.0, y.0, z.0); }
    if x.0 == y.0 && y.0 == z.0 { StrLessTransitive(x.1, y.1, z.1); }
  }

  lemma EntryLessTotal(x: Entry, y: Entry)
    requires x != y
    ensures EntryLess(x, y) || EntryLess(y, x)
  {
    if x.0 != y.0 { StrLessTotal(x.0, y.0); } else { StrLessTotal(x.1, y.1); }
  }

  /** Strictly increasing, hence also free of duplicates. */
  predicate StrictlySorted(s: seq<Entry>) {
    forall i, j :: 0 <= i < j < |s| ==> EntryLess(s[i], s[j])
  }

  /** Puts `x` into its place in a strictly sorted list, unless it is there. */
  function Insert(x: Entry, s: seq<Entry>): (r: seq<Entry>)
    requires StrictlySorted(s)
    ensures StrictlySorted(r)
    ensures forall e :: e in r <==> e == x || e in s
    decreases |s|
  {
    if |s| == 0 then [x]
    else if x == s[0] then s
    else if EntryLess(x, s[0]) then
      assert forall j :: 0 < j < |s| ==> EntryLess(x, s[j]) by {
        forall j | 0 < j < |s| ensures EntryLess(x, s[j]) { EntryLessTransitive(x, s[0], s[j]); }
      }
      [x] + s
    else
      EntryLessTotal(x, s[0]);
      var rest := Insert(x, s[1..]);
      assert forall e :: e in rest ==> EntryLess(s[0], e);
      [s[0]] + rest
  }

  /** `sorted(set(entries))`: the distinct entries in increasing order. */
  function SortedUnique(entries: seq<Entry>): (r: seq<Entry>)
    ensures StrictlySorted(r)
    ensures forall e :: e in r <==> e in entries
    decreases |entries|
  {
    if |entries| == 0 then [] else Insert(entries[0], SortedUnique(entries[1..]))
  }

  lemma EntryLessAsymmetric(x: Entry, y: Entry)
    requires EntryLess(x, y)
    ensures !EntryLess(y, x)
  {
    if EntryLess(y, x) {
      EntryLessTransitive(x, y, x);
      EntryLessIrreflexive(x);
    }
  }

  /** A strictly sorted list is determined by the entries it holds: two of
      them with the same members are equal. */
  lemma {:induction false} StrictlySortedUnique(a: seq<Entry>, b: seq<Entry>)
    requires StrictlySorted(a) && StrictlySorted(b)
    requires forall e :: e in a <==> e in b
    ensures a == b
    decreases |a|
  {
    if |a| > 0 { assert a[0] in a; }
    if |b| > 0 { assert b[0] in b; }
    if |a| > 0 && |b| > 0 {
      // the least members coincide
      assert a[0] in b;
      var ja :| 0 <= ja < |b| && b[ja] == a[0];
      assert b[0] in a;
      var jb :| 0 <= jb < |a| && a[jb] == b[0];
      if ja > 0 && jb > 0 { EntryLessAsymmetric(b[0], a[0]); }
      assert a[0] == b[0];
      EntryLessIrreflexive(a[0]);
      forall e | e in a[1..] ensures e in b[1..] {
        var i :| 1 <= i < |a| && a[i] == e;
        assert e in b;
        var j :| 0 <= j < |b| && b[j] == e;
        assert j >= 1 && b[1..][j - 1] == e;
      }
      forall e | e in b[1..] ensures e in a[1..] {
        var j :| 1 <= j < |b| && b[j] == e;
        assert e in a;
        var i :| 0 <= i < |a| && a[i] == e;
        assert i >= 1 && a[1..][i - 1] == e;
      }
      StrictlySortedUnique(a[1..], b[1..]);
      assert a == [a[0]] + a[1..] && b == [b[0]] + b[1..];
    }
  }
}
