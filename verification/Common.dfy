/** Small vocabulary shared by every component of the model. */
module Common {

  datatype Option<+T> = None | Some(value: T)

  /** A UUID. Only equality and the nil value matter to the modelled code. */
  type Uid = nat

  const NIL_UID: Uid := 0

  type byte = x: int | 0 <= x < 256

  /** A non-empty finite set of integers has a least element. */
  lemma {:induction false} LeastExists(keys: set<int>) returns (k: int)
    requires keys != {}
    ensures k in keys
    ensures forall x :: x in keys ==> k <= x
    decreases |keys|
  {
    if forall x: int :: x !in keys {
      assert false; // keys would be empty
    }
    var any :| any in keys;
    k := any;
    var rest := keys - {any};
    if rest != {} {
      var m := LeastExists(rest);
      k := if m < any then m else any;
    }
    forall x | x in keys ensures k <= x {
      if x != any {
        assert x in rest;
      }
    }
  }

  lemma SubsetSmaller<T>(a: set<T>, b: set<T>)
    requires a <= b
    ensures |a| <= |b|
  {
    assert b == a + (b - a);
  }

  lemma Regroup<T>(a: seq<T>, b: seq<T>, c: seq<T>)
    ensures a + b + c == a + (b + c)
  {
  }

  /** There is always a number that is not in use. */
  lemma {:induction false} UnusedExists(used: set<nat>) returns (n: nat)
    ensures n !in used && forall x :: x in used ==> x < n
    decreases |used|
  {
    n := 0;
    if used != {} {
      var any :| any in used;
      var m := UnusedExists(used - {any});
      n := if m <= any then any + 1 else m;
      forall x | x in used ensures x < n {
        if x != any {
          assert x in used - {any};
        }
      }
    }
  }
}
