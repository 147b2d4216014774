/** Python lists used as sets: membership lists of classes and groups and
    the e-mail whitelist of a group. */
module Lists {

  /** No element occurs twice. */
  ghost predicate NoDup<T>(s: seq<T>) {
    forall i, j :: 0 <= i < j < |s| ==> s[i] != s[j]
  }

  /** Appending an absent element keeps a duplicate-free list duplicate-free. */
  lemma NoDupAppend<T>(s: seq<T>, x: T)
    ensures NoDup(s) && x !in s ==> NoDup(s + [x])
  {
    if !(NoDup(s) && x !in s) {
      return;
    }
    forall i, j | 0 <= i < j < |s + [x]|
      ensures (s + [x])[i] != (s + [x])[j]
    {
      if j == |s| {
        assert (s + [x])[i] == s[i];
      }
    }
  }

  /** Python's `list.index(x)`: the position of the first occurrence of `x`. */
  function IndexOf<T(==)>(s: seq<T>, x: T): (i: nat)
    requires x in s
    ensures i < |s| && s[i] == x && x !in s[..i]
    decreases |s|
  {
    if s[0] == x then 0
    else
      var i := 1 + IndexOf(s[1..], x);
      assert s[..i] == [s[0]] + s[1..][..i - 1];
      i
  }

  /** Dropping the element at position `i` keeps every other element and
      adds none; when `s[i]` is the only occurrence of its value in a
      duplicate-free list, that value is gone and the list stays
      duplicate-free. */
  lemma DropAt<T>(s: seq<T>, i: nat)
    requires i < |s|
    ensures var r := s[..i] + s[i + 1..];
      && |r| == |s| - 1
      && (forall y :: y in r ==> y in s)
      && (forall y :: y in s && y != s[i] ==> y in r)
      && (NoDup(s) ==> s[i] !in r && NoDup(r))
  {
    var r := s[..i] + s[i + 1..];
    forall y | y in s && y != s[i] ensures y in r {
      var k :| 0 <= k < |s| && s[k] == y;
      if k < i { assert r[k] == y; } else { assert r[k - 1] == y; }
    }
    if NoDup(s) {
      forall k | 0 <= k < |r| ensures r[k] != s[i] {
        if k < i { assert r[k] == s[k]; } else { assert r[k] == s[k + 1]; }
      }
      forall a, b | 0 <= a < b < |r| ensures r[a] != r[b] {
        var a' := if a < i then a else a + 1;
        var b' := if b < i then b else b + 1;
        assert r[a] == s[a'] && r[b] == s[b'];
      }
    }
  }

  /** Cutting out position `j + 1` of `s` is putting `s[0]` in front of
      cutting out position `j` of its tail. */
  lemma SplitCons<T>(s: seq<T>, j: nat)
    requires j + 1 < |s|
    ensures s[..j + 1] + s[j + 2..] == [s[0]] + (s[1..][..j] + s[1..][j + 1..])
  {
    assert s[..j + 1] == [s[0]] + s[1..][..j];
    assert s[j + 2..] == s[1..][j + 1..];
  }

  /** Python's `list.remove(x)`: drop the first occurrence of `x`, keeping
      the order of the rest. Python raises when `x` is absent, hence the
      precondition. */
  function RemoveFirst<T(==)>(s: seq<T>, x: T): (r: seq<T>)
    requires x in s
    ensures r == s[..IndexOf(s, x)] + s[IndexOf(s, x) + 1..]
    ensures |r| == |s| - 1
    ensures forall y :: y in r ==> y in s
    ensures forall y :: y in s && y != x ==> y in r
    ensures NoDup(s) ==> x !in r && NoDup(r)
    decreases |s|
  {
    DropAt(s, IndexOf(s, x));
    if s[0] == x then
      assert s[..0] + s[1..] == s[1..];
      s[1..]
    else
      var t := s[1..];
      var rest := RemoveFirst(t, x);
      var j := IndexOf(t, x);
      assert IndexOf(s, x) == j + 1;
      SplitCons(s, j);
      assert rest == t[..j] + t[j + 1..];
      [s[0]] + rest
  }

  /** `r` is `s` with position `i` cut out, `s[i]` is `x`, and no earlier
      position holds `x`. */
  predicate CutsFirstAt<T(==)>(s: seq<T>, x: T, i: int, r: seq<T>) {
    0 <= i < |s| && s[i] == x && x !in s[..i] && r == s[..i] + s[i + 1..]
  }

  /** `list.remove(x)` cuts out exactly one position: one holding `x` with
      no `x` before it, and the rest keeps its order. */
  lemma RemoveFirstDropsFirst<T>(s: seq<T>, x: T)
    requires x in s
    ensures exists i :: CutsFirstAt(s, x, i, RemoveFirst(s, x))
  {
    assert CutsFirstAt(s, x, IndexOf(s, x), RemoveFirst(s, x));
  }

  /** Removing an element that was just appended to a list lacking it gives
      back the original list. */
  lemma {:induction false} RemoveAppended<T>(s: seq<T>, x: T)
    requires x !in s
    ensures RemoveFirst(s + [x], x) == s
    decreases |s|
  {
    if s == [] {
    } else {
      assert (s + [x])[0] == s[0];
      assert (s + [x])[1..] == s[1..] + [x];
      RemoveAppended(s[1..], x);
    }
  }
}
