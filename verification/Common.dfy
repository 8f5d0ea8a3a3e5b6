/** Values shared by every module: options, results, and sums of byte counts. */
module Common {
  datatype Option<+T> = None | Some(value: T)

  datatype Result<+T, +E> = Ok(value: T) | Err(error: E)

  /** Total of a list of byte counts. */
  function Sum(s: seq<nat>): (n: nat) {
    if s == [] then 0 else s[0] + Sum(s[1..])
  }

  lemma {:induction false} SumAppend(a: seq<nat>, b: seq<nat>)
    ensures Sum(a + b) == Sum(a) + Sum(b)
  {
    if a == [] {
      assert a + b == b;
    } else {
      assert (a + b)[1..] == a[1..] + b;
      SumAppend(a[1..], b);
    }
  }

  lemma {:induction false} SumOne(x: nat)
    ensures Sum([x]) == x
  {
    assert [x][1..] == [];
  }

  /** No list of entries, each at most `max` bytes, outweighs its length times `max`. */
  lemma {:induction false} SumAtMost(s: seq<nat>, max: nat)
    requires forall i :: 0 <= i < |s| ==> s[i] <= max
    ensures Sum(s) <= |s| * max
  {
    if s != [] {
      SumAtMost(s[1..], max);
    }
  }

  lemma {:induction false} SumSplit(s: seq<nat>, i: nat)
    requires i <= |s|
    ensures Sum(s[..i]) + Sum(s[i..]) == Sum(s)
  {
    assert s[..i] + s[i..] == s;
    SumAppend(s[..i], s[i..]);
  }

}
