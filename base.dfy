/** Small sequence vocabulary shared by the model: an Option type and the
    JavaScript array operations the editor relies on (`includes`, `indexOf`,
    `splice(indexOf(x), 1)`). */
module Base {

  datatype Option<+T> = None | Some(value: T)

  /** No element occurs twice. */
  ghost predicate NoDup<T>(s: seq<T>) {
    forall i, j :: 0 <= i < j < |s| ==> s[i] != s[j]
  }

  /** `Array.prototype.indexOf`: the first position of `x`, or -1 when absent. */
  function IndexOf<T(==)>(s: seq<T>, x: T): (r: int)
    ensures x !in s <==> r == -1
    ensures x in s ==> 0 <= r < |s| && s[r] == x && forall j :: 0 <= j < r ==> s[j] != x
  {
    if |s| == 0 then -1
    else if s[0] == x then 0
    else var k := IndexOf(s[1..], x); if k == -1 then -1 else k + 1
  }

  /** `if (s.includes(x)) s.splice(s.indexOf(x), 1)`: drop the first occurrence. */
  function RemoveFirst<T(==)>(s: seq<T>, x: T): (r: seq<T>)
    ensures x !in s ==> r == s
    ensures x in s ==> |r| == |s| - 1
    ensures x in s ==> r == s[..IndexOf(s, x)] + s[IndexOf(s, x) + 1..]
  {
    if x in s then s[..IndexOf(s, x)] + s[IndexOf(s, x) + 1..] else s
  }

  /** Removing one occurrence takes exactly one copy of `x` out of the multiset
      and keeps the relative order of everything else. */
  lemma RemoveFirstMultiset<T>(s: seq<T>, x: T)
    ensures multiset(RemoveFirst(s, x)) == multiset(s) - multiset{x}
  {
    if x in s {
      var i := IndexOf(s, x);
      assert s == s[..i] + [x] + s[i + 1..];
      assert multiset(s) == multiset(s[..i]) + multiset{x} + multiset(s[i + 1..]);
    } else {
      assert multiset(s)[x] == 0;
    }
  }

  /** The elements other than the first `x` keep their order: the result is `s`
      with position IndexOf(s, x) cut out. */
  lemma RemoveFirstAt<T>(s: seq<T>, x: T, j: int)
    requires x in s && 0 <= j < |s| - 1
    ensures RemoveFirst(s, x)[j] == if j < IndexOf(s, x) then s[j] else s[j + 1]
  {
  }

  /** On a duplicate-free sequence, removing the first occurrence removes `x`
      entirely, keeps every other element and stays duplicate-free. */
  lemma RemoveFirstNoDup<T>(s: seq<T>, x: T)
    requires NoDup(s)
    ensures x !in RemoveFirst(s, x)
    ensures NoDup(RemoveFirst(s, x))
    ensures forall y :: y != x ==> (y in RemoveFirst(s, x) <==> y in s)
  {
    if x in s {
      var i := IndexOf(s, x);
      var r := RemoveFirst(s, x);
      assert s == s[..i] + [x] + s[i + 1..];
      assert r == s[..i] + s[i + 1..];
      assert x !in s[..i];
      assert x !in s[i + 1..] by {
        forall k | i + 1 <= k < |s| ensures s[k] != x { assert s[i] == x; }
      }
      forall p, q | 0 <= p < q < |r| ensures r[p] != r[q] {
        RemoveFirstAt(s, x, p);
        RemoveFirstAt(s, x, q);
      }
    }
  }

  /** Every element of the result was in the input. */
  lemma RemoveFirstSubset<T>(s: seq<T>, x: T)
    ensures forall y :: y in RemoveFirst(s, x) ==> y in s
  {
    if x in s {
      var i := IndexOf(s, x);
      assert s == s[..i] + [x] + s[i + 1..];
    }
  }

  /** Elements other than `x` are kept. */
  lemma RemoveFirstKeeps<T>(s: seq<T>, x: T, y: T)
    requires y != x
    ensures y in RemoveFirst(s, x) <==> y in s
  {
    if x in s {
      var i := IndexOf(s, x);
      assert s == s[..i] + [x] + s[i + 1..];
    }
  }

  /** Appending an element that is not already present keeps a sequence
      duplicate-free. */
  lemma AppendFreshNoDup<T>(s: seq<T>, x: T)
    requires NoDup(s) && x !in s
    ensures NoDup(s + [x])
  {
  }

  /** Extending a prefix by one element. */
  lemma PrefixSnoc<T>(s: seq<T>, k: nat)
    requires k < |s|
    ensures s[..k + 1] == s[..k] + [s[k]]
  {
  }
}
