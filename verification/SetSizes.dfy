/** Sizes of finite sets. */
module SetSizes {
  // A set of things with distinct keys below `n` has at most `n` members.
  lemma {:induction false} InjectionBound(s: set<int>, key: int -> int, n: nat)
    requires forall e :: e in s ==> 0 <= key(e) < n
    requires forall e, f :: e in s && f in s && key(e) == key(f) ==> e == f
    ensures |s| <= n
    decreases n
  {
    if n == 0 {
      forall e | e in s
        ensures 0 <= key(e) < 0
      {
      }
    } else if exists e :: e in s && key(e) == n - 1 {
      var e :| e in s && key(e) == n - 1;
      InjectionBound(s - {e}, key, n - 1);
    } else {
      InjectionBound(s, key, n - 1);
    }
  }

  lemma {:induction false} SubsetSize<T>(a: set<T>, b: set<T>)
    requires a <= b
    ensures |a| <= |b|
    ensures |a| == |b| ==> a == b
  {
    if a == {} {
    } else {
      var x :| x in a;
      SubsetSize(a - {x}, b - {x});
    }
  }

  ghost function Image<T>(s: set<T>, f: T -> int): set<int> {
    set x | x in s :: f(x)
  }

  lemma {:induction false} ImageSize<T>(s: set<T>, f: T -> int)
    requires forall x, y :: x in s && y in s && f(x) == f(y) ==> x == y
    ensures |Image(s, f)| == |s|
    decreases s
  {
    if s == {} {
      assert Image(s, f) == {};
    } else {
      var x :| x in s;
      ImageSize(s - {x}, f);
      assert Image(s, f) == Image(s - {x}, f) + {f(x)};
    }
  }

  lemma {:induction false} CountBelow(s: set<int>, n: nat)
    requires forall i :: i in s <==> 0 <= i < n
    ensures |s| == n
  {
    if n == 0 {
      InjectionBound(s, i => i, 0);
    } else {
      CountBelow(s - {n - 1}, n - 1);
    }
  }

  // Some number is greater than all of finitely many.
  lemma {:induction false} Above<T>(s: set<T>, f: T -> int) returns (m: int)
    ensures 0 <= m && forall x :: x in s ==> f(x) < m
    decreases s
  {
    if s == {} {
      m := 0;
    } else {
      var x :| x in s;
      var rest := Above(s - {x}, f);
      m := if rest <= f(x) then f(x) + 1 else rest;
    }
  }
}
