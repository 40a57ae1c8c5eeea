/**
  The subscriber registry of a store. The source keeps it in a JavaScript `Map`
  keyed by callback identity; here it is the list of that map's keys in
  insertion order, which is what `Map.prototype.forEach` walks.
 */
module Registry {

  /** Every callback is registered at most once (a map has unique keys). */
  ghost predicate NoDups<Id>(reg: seq<Id>) {
    forall i, j :: 0 <= i < j < |reg| ==> reg[i] != reg[j]
  }

  /** `a` is `b` with some entries deleted, the rest in their original order. */
  ghost predicate Subseq<T>(a: seq<T>, b: seq<T>)
    decreases |b|
  {
    |a| == 0 || (|b| > 0 && ((a[0] == b[0] && Subseq(a[1..], b[1..])) || Subseq(a, b[1..])))
  }

  /**
    `Map.prototype.set(id, id)`: a new key goes to the end; a key already
    present keeps its place.
   */
  function Add<Id(==)>(reg: seq<Id>, id: Id): (r: seq<Id>)
    ensures id in r && forall x :: x in reg ==> x in r
    ensures forall x :: x in r ==> x in reg || x == id
    ensures |reg| <= |r| <= |reg| + 1 && r[..|reg|] == reg
    ensures NoDups(reg) ==> NoDups(r)
  {
    if id in reg then reg else reg + [id]
  }

  /**
    The registry after deleting every key in `gone` (`Map.prototype.delete`
    for each of them); a key that is not present is simply not found.
   */
  function Without<Id(==)>(reg: seq<Id>, gone: set<Id>): (r: seq<Id>)
    ensures forall x :: x in r ==> x in reg && x !in gone
    ensures forall x :: x in reg && x !in gone ==> x in r
    ensures NoDups(reg) ==> NoDups(r)
    ensures Subseq(r, reg)
    ensures |r| <= |reg|
  {
    if |reg| == 0 then []
    else if reg[0] in gone then
      var rest := Without(reg[1..], gone);
      SubseqCons(rest, reg[1..], reg[0]);
      assert [reg[0]] + reg[1..] == reg;
      rest
    else
      var rest := Without(reg[1..], gone);
      assert ([reg[0]] + rest)[1..] == rest;
      [reg[0]] + rest
  }

  /** Putting one more entry in front of `b` keeps `a` a subsequence of it. */
  lemma SubseqCons<T>(a: seq<T>, b: seq<T>, x: T)
    requires Subseq(a, b)
    ensures Subseq(a, [x] + b)
  {
    assert ([x] + b)[1..] == b;
  }

  /** Deleting twice is deleting the union once; in particular deleting is idempotent. */
  lemma {:induction false} WithoutCompose<Id>(reg: seq<Id>, a: set<Id>, b: set<Id>)
    ensures Without(Without(reg, a), b) == Without(reg, a + b)
    decreases |reg|
  {
    if |reg| > 0 {
      WithoutCompose(reg[1..], a, b);
      if reg[0] !in a {
        assert ([reg[0]] + Without(reg[1..], a))[1..] == Without(reg[1..], a);
      }
    }
  }

  /** Deleting keys none of which is present leaves the registry as it was. */
  lemma {:induction false} WithoutAbsent<Id>(reg: seq<Id>, gone: set<Id>)
    requires forall x :: x in reg ==> x !in gone
    ensures Without(reg, gone) == reg
    decreases |reg|
  {
    if |reg| > 0 {
      WithoutAbsent(reg[1..], gone);
      assert [reg[0]] + reg[1..] == reg;
    }
  }

  /** Deleting from a concatenation deletes from each part. */
  lemma {:induction false} WithoutAppend<Id>(a: seq<Id>, b: seq<Id>, gone: set<Id>)
    ensures Without(a + b, gone) == Without(a, gone) + Without(b, gone)
    decreases |a|
  {
    if |a| == 0 {
      assert a + b == b;
    } else {
      assert (a + b)[1..] == a[1..] + b;
      assert (a + b)[0] == a[0];
      WithoutAppend(a[1..], b, gone);
    }
  }

  /**
    Deleting one registered key removes exactly the entry at its position:
    every other registration keeps its place relative to the rest.
   */
  lemma {:induction false} WithoutAt<Id>(reg: seq<Id>, j: int)
    requires NoDups(reg) && 0 <= j < |reg|
    ensures Without(reg, {reg[j]}) == reg[..j] + reg[j + 1..]
  {
    var id := reg[j];
    var before, after := reg[..j], reg[j + 1..];
    assert reg == before + ([id] + after);
    assert ([id] + after)[1..] == after;
    assert id !in before && id !in after;
    assert forall x :: x in before ==> x !in {id};
    assert forall x :: x in after ==> x !in {id};
    WithoutAppend(before, [id] + after, {id});
    WithoutAbsent(before, {id});
    WithoutAbsent(after, {id});
  }

  /** Subscribing a new callback and then deleting it restores the registry. */
  lemma AddThenWithout<Id>(reg: seq<Id>, id: Id)
    requires id !in reg
    ensures Without(Add(reg, id), {id}) == reg
  {
    WithoutAppend(reg, [id], {id});
    WithoutAbsent(reg, {id});
  }

  /** Subscribing a callback that is already registered changes nothing. */
  lemma AddIdempotent<Id>(reg: seq<Id>, id: Id)
    ensures Add(Add(reg, id), id) == Add(reg, id)
  {
  }
}
