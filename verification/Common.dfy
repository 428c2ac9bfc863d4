/** Small building blocks shared by the models. */
module Common {

  datatype Option<+T> = None | Some(value: T)

  /** The sum of w over the elements of s. */
  function Total<T>(s: seq<T>, w: T -> int): int {
    if s == [] then 0 else Total(s[..|s| - 1], w) + w(s[|s| - 1])
  }

  lemma TotalAppend<T>(s: seq<T>, x: T, w: T -> int)
    ensures Total(s + [x], w) == Total(s, w) + w(x)
  {
    assert (s + [x])[..|s|] == s;
  }

  lemma {:induction false} TotalConcat<T>(s: seq<T>, t: seq<T>, w: T -> int)
    ensures Total(s + t, w) == Total(s, w) + Total(t, w)
  {
    if t == [] {
      assert s + t == s;
    } else {
      var n := |t| - 1;
      TotalConcat(s, t[..n], w);
      assert s + t == (s + t[..n]) + [t[n]];
      TotalAppend(s + t[..n], t[n], w);
    }
  }

  /** The sum of f over a finite set. */
  ghost function SetTotal(s: set<nat>, f: nat -> int): int {
    if s == {} then 0 else
      var x :| x in s;
      f(x) + SetTotal(s - {x}, f)
  }

  lemma {:induction false} SetTotalRemove(s: set<nat>, f: nat -> int, x: nat)
    requires x in s
    ensures SetTotal(s, f) == f(x) + SetTotal(s - {x}, f)
    decreases |s|
  {
    var y :| y in s && SetTotal(s, f) == f(y) + SetTotal(s - {y}, f);
    if x != y {
      SetTotalRemove(s - {y}, f, x);
      SetTotalRemove(s - {x}, f, y);
      assert s - {y} - {x} == s - {x} - {y};
    }
  }

  /** A sequence with its i-th element taken out. */
  function Without<T>(s: seq<T>, i: nat): seq<T>
    requires i < |s|
  {
    s[..i] + s[i + 1..]
  }
}
