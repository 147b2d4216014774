/** A task's `divisions` list and the overwrite that `TaskModel.add_division`
    performs on it. */
module Divisions {
  import opened Wrappers
  import opened Store

  /** `[div for div in divs if div.member_id != m]`. */
  function Without(divs: seq<Division>, m: UserId): (r: seq<Division>)
    ensures forall d :: d in r ==> d in divs && d.member != m
    ensures forall d :: d in divs && d.member != m ==> d in r
    decreases |divs|
  {
    if divs == [] then []
    else (if divs[0].member == m then [] else [divs[0]]) + Without(divs[1..], m)
  }

  /** Drop member `m`'s divisions and append `Division(m, part)`. */
  function Reassign(divs: seq<Division>, m: UserId, part: string): (r: seq<Division>)
    ensures r != [] && r[|r| - 1] == Division(m, part)
    ensures Only(r, m) == [Division(m, part)]
    ensures forall n :: n != m ==> Only(r, n) == Only(divs, n)
    ensures Without(r, m) == Without(divs, m)
  {
    var kept := Without(divs, m);
    OnlyAppend(kept, [Division(m, part)], m);
    OnlyWithoutSame(divs, m);
    WithoutAppend(kept, [Division(m, part)], m);
    WithoutTwice(divs, m);
    assert forall n :: n != m ==> Only(kept + [Division(m, part)], n) == Only(divs, n) by {
      forall n | n != m ensures Only(kept + [Division(m, part)], n) == Only(divs, n) {
        OnlyAppend(kept, [Division(m, part)], n);
        OnlyWithoutOther(divs, m, n);
      }
    }
    kept + [Division(m, part)]
  }

  /** The part shown to member `m` on the submission page: the first of
      `m`'s divisions, if any. */
  function PartFor(divs: seq<Division>, m: UserId): (r: Option<string>)
    ensures r.None? <==> Only(divs, m) == []
    ensures r.Some? ==> r.value == Only(divs, m)[0].part
    decreases |divs|
  {
    if divs == [] then None
    else if divs[0].member == m then Some(divs[0].part)
    else PartFor(divs[1..], m)
  }

  // ---------------------------------------------------------------------

  lemma {:induction false} OnlyAppend(a: seq<Division>, b: seq<Division>, m: UserId)
    ensures Only(a + b, m) == Only(a, m) + Only(b, m)
    decreases |a|
  {
    if a == [] {
      assert a + b == b;
    } else {
      assert (a + b)[0] == a[0];
      assert (a + b)[1..] == a[1..] + b;
      OnlyAppend(a[1..], b, m);
    }
  }

  lemma {:induction false} WithoutAppend(a: seq<Division>, b: seq<Division>, m: UserId)
    ensures Without(a + b, m) == Without(a, m) + Without(b, m)
    decreases |a|
  {
    if a == [] {
      assert a + b == b;
    } else {
      assert (a + b)[0] == a[0];
      assert (a + b)[1..] == a[1..] + b;
      WithoutAppend(a[1..], b, m);
    }
  }

  lemma {:induction false} OnlyWithoutSame(divs: seq<Division>, m: UserId)
    ensures Only(Without(divs, m), m) == []
    decreases |divs|
  {
    if divs != [] {
      var head := if divs[0].member == m then [] else [divs[0]];
      OnlyAppend(head, Without(divs[1..], m), m);
      OnlyWithoutSame(divs[1..], m);
    }
  }

  lemma {:induction false} OnlyWithoutOther(divs: seq<Division>, m: UserId, n: UserId)
    requires n != m
    ensures Only(Without(divs, m), n) == Only(divs, n)
    decreases |divs|
  {
    if divs != [] {
      var head := if divs[0].member == m then [] else [divs[0]];
      OnlyAppend(head, Without(divs[1..], m), n);
      OnlyWithoutOther(divs[1..], m, n);
    }
  }

  lemma {:induction false} WithoutTwice(divs: seq<Division>, m: UserId)
    ensures Without(Without(divs, m), m) == Without(divs, m)
    decreases |divs|
  {
    if divs != [] {
      var head := if divs[0].member == m then [] else [divs[0]];
      WithoutAppend(head, Without(divs[1..], m), m);
      WithoutTwice(divs[1..], m);
    }
  }

  /** Assigning a member twice leaves exactly the second assignment, at the
      same place as a single assignment would. */
  lemma ReassignOverwrites(divs: seq<Division>, m: UserId, first: string, second: string)
    ensures Reassign(Reassign(divs, m, first), m, second) == Reassign(divs, m, second)
  {
  }

  /** Reassigning keeps "at most one division per member". */
  lemma ReassignKeepsUnique(divs: seq<Division>, m: UserId, part: string)
    requires forall n :: |Only(divs, n)| <= 1
    ensures forall n :: |Only(Reassign(divs, m, part), n)| <= 1
  {
  }

  /** After the overwrite, `m` reads back its new part and every other
      member reads back what it read before. */
  lemma ReassignPartFor(divs: seq<Division>, m: UserId, part: string, n: UserId)
    ensures PartFor(Reassign(divs, m, part), m) == Some(part)
    ensures n != m ==> PartFor(Reassign(divs, m, part), n) == PartFor(divs, n)
  {
  }
}
