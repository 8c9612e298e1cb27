/** The order of strings, and the one sorted list of a set of them.

The mirror collects users and trees in hash sets and sorts them before it writes.
*/
module StringOrder {

  predicate Less(a: string, b: string) {
    b != "" && (a == "" || a[0] < b[0] || (a[0] == b[0] && Less(a[1..], b[1..])))
  }

  lemma {:induction false} LessTotal(a: string, b: string)
    ensures a == b || Less(a, b) || Less(b, a)
    ensures !(Less(a, b) && Less(b, a)) && (a == b ==> !Less(a, b))
  {
    if a != "" && b != "" {
      LessTotal(a[1..], b[1..]);
      assert a == [a[0]] + a[1..] && b == [b[0]] + b[1..];
    }
  }

  lemma {:induction false} LessTransitive(a: string, b: string, c: string)
    requires Less(a, b) && Less(b, c)
    ensures Less(a, c)
  {
    if a != "" && a[0] == b[0] && b[0] == c[0] {
      LessTransitive(a[1..], b[1..], c[1..]);
    }
  }

  ghost predicate StrictlySorted(l: seq<string>) {
    forall i, j :: 0 <= i < j < |l| ==> Less(l[i], l[j])
  }

  ghost predicate IsLeast(m: string, s: set<string>) {
    m in s && forall x :: x in s && x != m ==> Less(m, x)
  }

  lemma {:induction false} LeastExists(s: set<string>)
    requires s != {}
    ensures exists m :: IsLeast(m, s)
  {
    var x :| x in s;
    if s == {x} {
      assert IsLeast(x, s);
    } else {
      LeastExists(s - {x});
      var m :| IsLeast(m, s - {x});
      LessTotal(x, m);
      if Less(x, m) {
        forall y | y in s && y != x ensures Less(x, y) {
          if y != m {
            LessTransitive(x, m, y);
          }
        }
        assert IsLeast(x, s);
      } else {
        assert IsLeast(m, s);
      }
    }
  }

  /** The elements of a set in ascending order. */
  ghost function Sorted(s: set<string>): seq<string> {
    if s == {} then []
    else
      LeastExists(s);
      var m :| IsLeast(m, s);
      [m] + Sorted(s - {m})
  }

  lemma {:induction false} SortedIsSorted(s: set<string>)
    ensures StrictlySorted(Sorted(s))
    ensures forall x :: x in Sorted(s) <==> x in s
    ensures Sorted(s) == [] <==> s == {}
  {
    if s != {} {
      LeastExists(s);
      var m :| IsLeast(m, s) && Sorted(s) == [m] + Sorted(s - {m});
      SortedIsSorted(s - {m});
      var rest := Sorted(s - {m});
      forall i, j | 0 <= i < j < |rest| + 1 ensures Less(([m] + rest)[i], ([m] + rest)[j]) {
        if i == 0 {
          assert rest[j - 1] in s - {m};
        }
      }
    }
  }

  lemma HasFirst(l: seq<string>)
    requires l != []
    ensures exists x :: x in l
  {
    assert l[0] in l;
  }

  /** There is only one: whatever order elements arrive in, sorting forgets it. */
  lemma {:induction false} SortedUnique(a: seq<string>, b: seq<string>)
    requires StrictlySorted(a) && StrictlySorted(b)
    requires forall x :: x in a <==> x in b
    ensures a == b
  {
    if a == [] || b == [] {
      if a != [] { HasFirst(a); }
      if b != [] { HasFirst(b); }
    } else {
      assert a[0] in a && a[0] in b;
      assert b[0] in b && b[0] in a;
      LessTotal(a[0], b[0]);
      var i :| 0 <= i < |b| && b[i] == a[0];
      var j :| 0 <= j < |a| && a[j] == b[0];
      assert a[0] == b[0];
      var x, y := a[1..], b[1..];
      forall s ensures s in x <==> s in y {
        Tail(a, s);
        Tail(b, s);
      }
      SortedUnique(x, y);
      assert a == [a[0]] + x && b == [b[0]] + y;
    }
  }

  lemma Tail(l: seq<string>, s: string)
    requires l != [] && StrictlySorted(l)
    ensures s in l[1..] <==> s in l && s != l[0]
  {
    LessTotal(l[0], l[0]);
    if s in l && s != l[0] {
      var i :| 0 <= i < |l| && l[i] == s;
      assert l[1..][i - 1] == s;
    }
  }

  method Insert(l: seq<string>, x: string) returns (r: seq<string>)
    requires StrictlySorted(l) && x !in l
    ensures StrictlySorted(r)
    ensures forall s :: s in r <==> s in l || s == x
  {
    var i := 0;
    while i < |l| && Less(l[i], x)
      invariant 0 <= i <= |l|
      invariant forall k :: 0 <= k < i ==> Less(l[k], x)
    {
      i := i + 1;
    }
    r := l[..i] + [x] + l[i..];
    forall k | i <= k < |l| ensures Less(x, l[k]) {
      LessTotal(l[i], x);
      assert l[i] in l;
      if k > i {
        LessTransitive(x, l[i], l[k]);
      }
    }
    assert l == l[..i] + l[i..];
  }

  /** Collects a set in an arbitrary order, as a hash set yields it, and sorts it. */
  method Sort(s: set<string>) returns (l: seq<string>)
    ensures l == Sorted(s)
  {
    l := [];
    var pending := s;
    while pending != {}
      invariant pending <= s && StrictlySorted(l)
      invariant forall x :: x in l <==> x in s && x !in pending
      decreases pending
    {
      var x :| x in pending;
      l := Insert(l, x);
      pending := pending - {x};
    }
    SortedIsSorted(s);
    SortedUnique(l, Sorted(s));
  }
}
