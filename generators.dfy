/**
 * The shape shared by the spiders' generator callbacks: walk the selected
 * elements in document order, skip some, yield one item for each of the
 * others, and stop at the first element whose processing raises.
 */
module Generators {
  import opened Values

  /** What such a generator has produced when it stops, given what each
      element gives: nothing, an item, or an exception. */
  function Collect<T, U>(rows: seq<T>, step: T -> Result<Option<U>>): (r: Yielded<U>)
    ensures |r.items| <= |rows|
  {
    if rows == [] then Yielded([], None)
    else
      var rest := Collect(rows[1..], step);
      match step(rows[0])
      case Err(e) => Yielded([], Some(e))
      case Ok(None) => rest
      case Ok(Some(x)) => Yielded([x] + rest.items, rest.failure)
  }

  /** The items of every element that gives one, ignoring exceptions: what
      the generator would yield if nothing raised. */
  function Outputs<T, U>(rows: seq<T>, step: T -> Result<Option<U>>): (r: seq<U>)
  {
    if rows == [] then []
    else
      (if step(rows[0]).Ok? && step(rows[0]).value.Some? then [step(rows[0]).value.value] else [])
      + Outputs(rows[1..], step)
  }

  predicate Raises<T, U>(rows: seq<T>, step: T -> Result<Option<U>>) {
    exists i :: 0 <= i < |rows| && step(rows[i]).Err?
  }

  lemma RaisesCons<T, U>(rows: seq<T>, step: T -> Result<Option<U>>)
    requires rows != []
    ensures Raises(rows, step) <==> step(rows[0]).Err? || Raises(rows[1..], step)
  {
    if Raises(rows[1..], step) {
      var i :| 0 <= i < |rows[1..]| && step(rows[1..][i]).Err?;
      assert rows[1..][i] == rows[i + 1];
    }
    if Raises(rows, step) && !step(rows[0]).Err? {
      var i :| 0 <= i < |rows| && step(rows[i]).Err?;
      assert rows[i] == rows[1..][i - 1];
    }
  }

  /** The generator stops early exactly when some element raises, and
      what it yielded by then is a prefix of the full output; when nothing
      raises it is the full output. */
  lemma {:induction false} CollectSpec<T, U>(rows: seq<T>, step: T -> Result<Option<U>>)
    ensures Collect(rows, step).failure.Some? <==> Raises(rows, step)
    ensures Collect(rows, step).items <= Outputs(rows, step)
    ensures !Raises(rows, step) ==> Collect(rows, step).items == Outputs(rows, step)
  {
    if rows != [] {
      CollectSpec(rows[1..], step);
      RaisesCons(rows, step);
    }
  }

  /** Every yielded item is the item of some element. */
  lemma {:induction false} CollectSound<T, U>(rows: seq<T>, step: T -> Result<Option<U>>, k: nat)
    requires k < |Collect(rows, step).items|
    ensures exists i :: 0 <= i < |rows| && step(rows[i]) == Ok(Some(Collect(rows, step).items[k]))
  {
    var x := step(rows[0]);
    var rest := Collect(rows[1..], step);
    if x.Ok? && x.value.Some? && k == 0 {
      assert step(rows[0]) == Ok(Some(Collect(rows, step).items[0]));
    } else {
      var k' := if x.Ok? && x.value.Some? then k - 1 else k;
      assert Collect(rows, step).items[k] == rest.items[k'];
      CollectSound(rows[1..], step, k');
      var i :| 0 <= i < |rows[1..]| && step(rows[1..][i]) == Ok(Some(rest.items[k']));
      assert rows[1..][i] == rows[i + 1];
    }
  }

  /** When every element gives an item, there is one item per element,
      in order. */
  lemma {:induction false} CollectEach<T, U>(rows: seq<T>, step: T -> Result<Option<U>>)
    requires forall i :: 0 <= i < |rows| ==> step(rows[i]).Ok? && step(rows[i]).value.Some?
    ensures Collect(rows, step).failure.None?
    ensures |Collect(rows, step).items| == |rows|
    ensures forall i :: 0 <= i < |rows| ==> step(rows[i]) == Ok(Some(Collect(rows, step).items[i]))
  {
    if rows != [] {
      assert forall i :: 0 <= i < |rows[1..]| ==> rows[1..][i] == rows[i + 1];
      CollectEach(rows[1..], step);
      var items := Collect(rows, step).items;
      var rest := Collect(rows[1..], step).items;
      assert items == [step(rows[0]).value.value] + rest;
      forall i | 1 <= i < |rows|
        ensures step(rows[i]) == Ok(Some(items[i]))
      {
        assert rows[i] == rows[1..][i - 1];
        assert items[i] == rest[i - 1];
      }
    }
  }

  /** When no element is skipped, the items yielded before the generator
      stops are those of the first elements, one each, in order. */
  lemma {:induction false} CollectInOrder<T, U>(rows: seq<T>, step: T -> Result<Option<U>>)
    requires forall i :: 0 <= i < |rows| ==> step(rows[i]) != Ok(None)
    ensures forall i :: 0 <= i < |Collect(rows, step).items| ==>
      i < |rows| && step(rows[i]) == Ok(Some(Collect(rows, step).items[i]))
  {
    if rows != [] {
      assert forall i :: 0 <= i < |rows[1..]| ==> rows[1..][i] == rows[i + 1];
      CollectInOrder(rows[1..], step);
      var items := Collect(rows, step).items;
      var rest := Collect(rows[1..], step).items;
      assert step(rows[0]) != Ok(None);
      if step(rows[0]).Ok? {
        assert step(rows[0]) == Ok(Some(step(rows[0]).value.value));
        assert items == [step(rows[0]).value.value] + rest;
        forall i | 1 <= i < |items|
          ensures i < |rows| && step(rows[i]) == Ok(Some(items[i]))
        {
          assert rows[i] == rows[1..][i - 1];
          assert items[i] == rest[i - 1];
        }
        assert forall i :: 0 <= i < |items| ==> i < |rows| && step(rows[i]) == Ok(Some(items[i]));
      } else {
        assert items == [];
      }
    } else {
      assert Collect(rows, step).items == [];
    }
  }

  /** A list built by a loop that appends one value per element: the
      first element whose processing raises makes the whole call raise. */
  function MapAll<T, U>(rows: seq<T>, f: T -> Result<U>): (r: Result<seq<U>>)
  {
    if rows == [] then Ok([])
    else
      var x :- f(rows[0]);
      var rest :- MapAll(rows[1..], f);
      Ok([x] + rest)
  }

  /** The list is built exactly when no element raises, and then holds the
      value of each element, in order; otherwise the exception is the one
      of the first element that raises. */
  lemma {:induction false} MapAllSpec<T, U>(rows: seq<T>, f: T -> Result<U>)
    ensures MapAll(rows, f).Ok? <==> forall i :: 0 <= i < |rows| ==> f(rows[i]).Ok?
    ensures MapAll(rows, f).Ok? ==>
      |MapAll(rows, f).value| == |rows|
      && forall i :: 0 <= i < |rows| ==> MapAll(rows, f).value[i] == f(rows[i]).value
    ensures MapAll(rows, f).Err? ==>
      var k := FirstWhere(rows, x => f(x).Err?, 0);
      k < |rows| && MapAll(rows, f).error == f(rows[k]).error
  {
    if rows != [] {
      var fails := x => f(x).Err?;
      MapAllSpec(rows[1..], f);
      assert forall i :: 0 <= i < |rows[1..]| ==> rows[1..][i] == rows[i + 1];
      if f(rows[0]).Ok? {
        FirstWhereShift(rows, fails);
        if MapAll(rows, f).Ok? {
          var r := MapAll(rows, f).value;
          var rest := MapAll(rows[1..], f).value;
          assert r == [f(rows[0]).value] + rest;
          forall i | 1 <= i < |rows|
            ensures r[i] == f(rows[i]).value
          {
            assert r[i] == rest[i - 1];
          }
        } else {
          var i :| 0 <= i < |rows[1..]| && !f(rows[1..][i]).Ok?;
          assert !f(rows[i + 1]).Ok?;
        }
      }
    }
  }

  /** Skipping a first element that does not satisfy `p` moves the first
      match one place. */
  lemma FirstWhereShift<T>(xs: seq<T>, p: T -> bool)
    requires xs != [] && !p(xs[0])
    ensures FirstWhere(xs, p, 0) == 1 + FirstWhere(xs[1..], p, 0)
  {
    assert forall j :: 0 <= j < |xs[1..]| ==> xs[1..][j] == xs[j + 1];
  }

  /** The value list built so far, followed by what the rest gives. */
  function Prepend<U>(done: seq<U>, rest: Result<seq<U>>): Result<seq<U>> {
    if rest.Ok? then Ok(done + rest.value) else rest
  }

  /** The appending loop. */
  method MapAllLoop<T, U>(rows: seq<T>, f: T -> Result<U>) returns (r: Result<seq<U>>)
    ensures r == MapAll(rows, f)
  {
    var out: seq<U> := [];
    var i := 0;
    assert rows[0..] == rows;
    assert MapAll(rows, f).Ok? ==> [] + MapAll(rows, f).value == MapAll(rows, f).value;
    while i < |rows|
      invariant 0 <= i <= |rows|
      invariant MapAll(rows, f) == Prepend(out, MapAll(rows[i..], f))
    {
      assert rows[i..][1..] == rows[i + 1..];
      var x := f(rows[i]);
      if x.Err? {
        return Err(x.error);
      }
      var rest := MapAll(rows[i + 1..], f);
      if rest.Ok? {
        assert out + ([x.value] + rest.value) == (out + [x.value]) + rest.value;
      }
      out := out + [x.value];
      i := i + 1;
    }
    assert rows[i..] == [] && out + [] == out;
    return Ok(out);
  }

  /** The index of the first element from `i` on that satisfies `p`, or
      `|xs|` when there is none: where a `for` loop with `break` stops. */
  function FirstWhere<T>(xs: seq<T>, p: T -> bool, i: nat): (k: nat)
    requires i <= |xs|
    ensures i <= k <= |xs|
    ensures forall j :: i <= j < k ==> !p(xs[j])
    ensures k < |xs| ==> p(xs[k])
    decreases |xs| - i
  {
    if i == |xs| then i else if p(xs[i]) then i else FirstWhere(xs, p, i + 1)
  }

  /** What the generator produces from element `j` on, one element
      unfolded. */
  lemma CollectAt<T, U>(rows: seq<T>, step: T -> Result<Option<U>>, j: nat)
    requires j < |rows|
    ensures var x := step(rows[j]);
      var rest := Collect(rows[j + 1..], step);
      Collect(rows[j..], step) ==
        if x.Err? then Yielded([], Some(x.error))
        else if x.value.None? then rest
        else Yielded([x.value.value] + rest.items, rest.failure)
  {
    assert rows[j..][1..] == rows[j + 1..];
  }

  /** The generator loop. */
  method CollectLoop<T, U>(rows: seq<T>, step: T -> Result<Option<U>>) returns (out: Yielded<U>)
    ensures out == Collect(rows, step)
  {
    var items: seq<U> := [];
    var i := 0;
    while i < |rows|
      invariant 0 <= i <= |rows|
      invariant Collect(rows, step)
        == Yielded(items + Collect(rows[i..], step).items, Collect(rows[i..], step).failure)
    {
      assert rows[i..][1..] == rows[i + 1..];
      var r := step(rows[i]);
      if r.Err? {
        return Yielded(items, Some(r.error));
      }
      if r.value.Some? {
        items := items + [r.value.value];
      }
      i := i + 1;
    }
    assert rows[i..] == [];
    return Yielded(items, None);
  }

  /** The indices a loop visits that starts at 0 and advances by 2 while
      below `n`. */
  function EvenIndices(n: nat): (r: seq<nat>)
    ensures |r| == (n + 1) / 2
    ensures forall j :: 0 <= j < |r| ==> r[j] == 2 * j && r[j] % 2 == 0 && r[j] < n
  {
    seq((n + 1) / 2, j => 2 * j)
  }

  /** The generator loop over every second index below `n`. */
  method StrideLoop<U>(n: nat, step: nat -> Result<Option<U>>) returns (out: Yielded<U>)
    ensures out == Collect(EvenIndices(n), step)
  {
    ghost var pairs := EvenIndices(n);
    var items: seq<U> := [];
    var idx: nat := 0;
    ghost var j := 0;
    while idx < n
      invariant idx == 2 * j && j <= |pairs|
      invariant Collect(pairs, step)
        == Yielded(items + Collect(pairs[j..], step).items, Collect(pairs[j..], step).failure)
    {
      assert pairs[j] == idx;
      CollectAt(pairs, step, j);
      var r := step(idx);
      if r.Err? {
        return Yielded(items, Some(r.error));
      }
      if r.value.Some? {
        items := items + [r.value.value];
      }
      idx := idx + 2;
      j := j + 1;
    }
    assert pairs[j..] == [];
    return Yielded(items, None);
  }
}
