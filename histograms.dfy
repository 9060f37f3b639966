/**
 * Histograms of scalar fields. A counter maps keys to counts: the
 * associative counter keeps a `std::map`, the indexed counter a
 * `std::vector` indexed by the distance of the key from the least value of
 * its key type. `updateCounter` walks every position of the field's box
 * with an odometer, dimension 0 fastest, and counts the value found there.
 *
 * Positions are sequences of coordinates, one per dimension; the scalar
 * field is a total function on positions.
 */
module Histograms {
  import opened Wrappers

  // ---------------------------------------------------------------------
  // Counters
  // ---------------------------------------------------------------------

  /** The const `operator[]` of the associative counter: a missing key reads 0. */
  function AssocRead(data: map<int, nat>, key: int): nat
  {
    if key in data then data[key] else 0
  }

  /** `++counter[ key ]` on a `std::map`: the mutable `operator[]` inserts 0 first. */
  function AssocIncrement(data: map<int, nat>, key: int): (r: map<int, nat>)
    ensures r.Keys == data.Keys + {key}
    ensures forall k :: AssocRead(r, k) == AssocRead(data, k) + (if k == key then 1 else 0)
  {
    data[key := AssocRead(data, key) + 1]
  }

  /** The const `operator[]` of the indexed counter: an index beyond the vector reads 0. */
  function IndexedRead(data: seq<nat>, index: nat): nat
  {
    if index < |data| then data[index] else 0
  }

  /** A vector of `n` zeros, as `std::vector::resize` appends them. */
  function Zeros(n: nat): (r: seq<nat>)
    ensures |r| == n && forall i :: 0 <= i < n ==> r[i] == 0
  {
    if n == 0 then [] else Zeros(n - 1) + [0]
  }

  /** `++counter[ key ]` on a `std::vector`: grows it to `index + 1` first if needed. */
  function IndexedIncrement(data: seq<nat>, index: nat): (r: seq<nat>)
    ensures |r| == if index < |data| then |data| else index + 1
    ensures forall i :: IndexedRead(r, i) == IndexedRead(data, i) + (if i == index then 1 else 0)
  {
    var grown := if index < |data| then data else data + Zeros(index + 1 - |data|);
    assert forall i :: IndexedRead(grown, i) == IndexedRead(data, i);
    grown[index := grown[index] + 1]
  }

  /** The map an associative counter holds after counting `keys` from empty. */
  function AssocCount(keys: seq<int>): map<int, nat>
  {
    if keys == [] then map[] else AssocIncrement(AssocCount(keys[..|keys| - 1]), keys[|keys| - 1])
  }

  /** The vector an indexed counter with least key `min` holds after counting `keys` from empty. */
  function IndexedCount(min: int, keys: seq<int>): seq<nat>
    requires forall i :: 0 <= i < |keys| ==> min <= keys[i]
  {
    if keys == [] then [] else IndexedIncrement(IndexedCount(min, keys[..|keys| - 1]), keys[|keys| - 1] - min)
  }

  /** The associative counter reads the number of occurrences of each key. */
  lemma {:induction false} AssocCounts(keys: seq<int>, k: int)
    ensures AssocRead(AssocCount(keys), k) == multiset(keys)[k]
    decreases |keys|
  {
    if keys != [] {
      var init := keys[..|keys| - 1];
      assert keys == init + [keys[|keys| - 1]];
      AssocCounts(init, k);
    }
  }

  /** The indexed counter reads the number of occurrences of each key of its key type. */
  lemma {:induction false} IndexedCounts(min: int, keys: seq<int>, k: int)
    requires forall i :: 0 <= i < |keys| ==> min <= keys[i]
    requires min <= k
    ensures IndexedRead(IndexedCount(min, keys), k - min) == multiset(keys)[k]
    decreases |keys|
  {
    if keys != [] {
      var init := keys[..|keys| - 1];
      assert keys == init + [keys[|keys| - 1]];
      IndexedCounts(min, init, k);
    }
  }

  /** Both counters agree on every key of the key type, whatever the keys counted. */
  lemma CountersAgree(min: int, keys: seq<int>, k: int)
    requires forall i :: 0 <= i < |keys| ==> min <= keys[i]
    requires min <= k
    ensures IndexedRead(IndexedCount(min, keys), k - min) == AssocRead(AssocCount(keys), k)
  {
    AssocCounts(keys, k);
    IndexedCounts(min, keys, k);
  }

  /** AssociativeCounter: a `std::map` from keys to counts. */
  class AssociativeCounter {
    var data: map<int, nat>

    constructor()
      ensures data == map[]
    {
      data := map[];
    }

    /** The const `operator[]`: reads without inserting. */
    method Get(key: int) returns (n: nat)
      ensures n == AssocRead(data, key)
      ensures key !in data ==> n == 0
    {
      if key in data {
        n := data[key];
      } else {
        n := 0;
      }
    }

    method Increment(key: int)
      modifies this
      ensures data == AssocIncrement(old(data), key)
    {
      var n := if key in data then data[key] else 0;
      data := data[key := n + 1];
    }

    /** reset: every key reads 0 again. */
    method Reset()
      modifies this
      ensures data == map[] && forall k :: AssocRead(data, k) == 0
    {
      data := map[];
    }
  }

  /** IndexedCounter: a `std::vector` indexed by `key - min`, `min` the least value of the key type. */
  class IndexedCounter {
    const min: int
    var data: seq<nat>

    constructor(min: int)
      ensures this.min == min && data == []
    {
      this.min := min;
      data := [];
    }

    /** The const `operator[]`: reads 0 beyond the vector, without growing it. */
    method Get(key: int) returns (n: nat)
      requires min <= key
      ensures n == IndexedRead(data, key - min)
      ensures key - min >= |data| ==> n == 0
    {
      var index := key - min;
      if index >= |data| {
        n := 0;
      } else {
        n := data[index];
      }
    }

    method Increment(key: int)
      requires min <= key
      modifies this
      ensures data == IndexedIncrement(old(data), key - min)
    {
      var index := key - min;
      if index >= |data| {
        data := data + Zeros(index + 1 - |data|);
      }
      data := data[index := data[index] + 1];
    }

    /** reset: every key reads 0 again. */
    method Reset()
      modifies this
      ensures data == [] && forall i :: IndexedRead(data, i) == 0
    {
      data := [];
    }
  }

  // ---------------------------------------------------------------------
  // The field box and its odometer
  // ---------------------------------------------------------------------

  /** `pos` lies in the box of size `size`. */
  predicate InBox(pos: seq<nat>, size: seq<nat>)
  {
    |pos| == |size| && forall i :: 0 <= i < |pos| ==> pos[i] < size[i]
  }

  /** The number of positions in the box. */
  function Product(size: seq<nat>): nat
  {
    if size == [] then 1 else size[0] * Product(size[1..])
  }

  /** The position of `pos` in the odometer order: dimension 0 is the fastest. */
  function Rank(pos: seq<nat>, size: seq<nat>): nat
    requires |pos| == |size|
  {
    if pos == [] then 0 else pos[0] + size[0] * Rank(pos[1..], size[1..])
  }

  /**
   * The odometer step of updateCounter: the first dimension that has not
   * reached its end is incremented and every lower one goes back to 0;
   * `None` once every dimension is at its end.
   */
  function Next(pos: seq<nat>, size: seq<nat>): Option<seq<nat>>
    requires |pos| == |size|
  {
    if pos == [] then None
    else if pos[0] + 1 < size[0] then Some([pos[0] + 1] + pos[1..])
    else match Next(pos[1..], size[1..])
      case None => None
      case Some(t) => Some([0] + t)
  }

  lemma MulMono(a: nat, x: nat, y: nat)
    requires x <= y
    ensures a * x <= a * y
  {
  }

  /** The rank of a position in the box is below the number of positions. */
  lemma {:induction false} RankBound(pos: seq<nat>, size: seq<nat>)
    requires InBox(pos, size)
    ensures Rank(pos, size) < Product(size)
  {
    if pos != [] {
      assert InBox(pos[1..], size[1..]);
      RankBound(pos[1..], size[1..]);
      var a, r, p := size[0], Rank(pos[1..], size[1..]), Product(size[1..]);
      assert Rank(pos, size) == pos[0] + a * r && Product(size) == a * p;
      MulMono(a, r, p - 1);
      assert a * (p - 1) == a * p - a;
    }
  }

  /** Mixed-radix digits are unique. */
  lemma DigitsUnique(s: nat, a: nat, x: nat, b: nat, y: nat)
    requires a < s && b < s && a + s * x == b + s * y
    ensures a == b && x == y
  {
    if x < y {
      MulMono(s, x + 1, y);
    } else if y < x {
      MulMono(s, y + 1, x);
    }
  }

  /** Different positions of the box have different ranks. */
  lemma {:induction false} RankInjective(p: seq<nat>, q: seq<nat>, size: seq<nat>)
    requires InBox(p, size) && InBox(q, size) && Rank(p, size) == Rank(q, size)
    ensures p == q
  {
    if p != [] {
      DigitsUnique(size[0], p[0], Rank(p[1..], size[1..]), q[0], Rank(q[1..], size[1..]));
      assert InBox(p[1..], size[1..]) && InBox(q[1..], size[1..]);
      RankInjective(p[1..], q[1..], size[1..]);
      assert p == [p[0]] + p[1..] && q == [q[0]] + q[1..];
    }
  }

  /** A step moves to the position of the next rank; there is none after the last. */
  lemma {:induction false} NextRank(pos: seq<nat>, size: seq<nat>)
    requires InBox(pos, size)
    ensures Next(pos, size).Some? ==>
              InBox(Next(pos, size).value, size) && Rank(Next(pos, size).value, size) == Rank(pos, size) + 1
    ensures Next(pos, size).None? ==> Rank(pos, size) + 1 == Product(size)
  {
    if pos != [] {
      assert InBox(pos[1..], size[1..]);
      NextRank(pos[1..], size[1..]);
      if pos[0] + 1 < size[0] {
        assert ([pos[0] + 1] + pos[1..])[1..] == pos[1..];
      } else {
        match Next(pos[1..], size[1..])
        case None =>
        case Some(t) =>
          assert ([0] + t)[1..] == t;
      }
    }
  }

  /** The position whose every coordinate is 0: where updateCounter starts. */
  lemma ZerosFirst(size: seq<nat>)
    requires forall i :: 0 <= i < |size| ==> size[i] > 0
    ensures InBox(Zeros(|size|), size) && Rank(Zeros(|size|), size) == 0
    decreases |size|
  {
    if size != [] {
      var z := Zeros(|size|);
      assert z[1..] == Zeros(|size| - 1);
      ZerosFirst(size[1..]);
    }
  }

  /** The positions the odometer visits from `pos` on. */
  function WalkFrom(pos: seq<nat>, size: seq<nat>): seq<seq<nat>>
    requires InBox(pos, size)
    decreases Product(size) - Rank(pos, size)
  {
    NextRank(pos, size);
    RankBound(pos, size);
    match Next(pos, size)
    case None => [pos]
    case Some(q) => [pos] + WalkFrom(q, size)
  }

  /** The walk from `pos` lists the positions of the following ranks, one each, to the end of the box. */
  lemma {:induction false} WalkRanks(pos: seq<nat>, size: seq<nat>)
    requires InBox(pos, size)
    ensures |WalkFrom(pos, size)| + Rank(pos, size) == Product(size)
    ensures forall i :: 0 <= i < |WalkFrom(pos, size)| ==>
              InBox(WalkFrom(pos, size)[i], size) && Rank(WalkFrom(pos, size)[i], size) == Rank(pos, size) + i
    decreases Product(size) - Rank(pos, size)
  {
    NextRank(pos, size);
    RankBound(pos, size);
    match Next(pos, size)
    case None =>
    case Some(q) =>
      WalkRanks(q, size);
  }

  /** Every dimension of the field has a positive size, as the Histogram constructor asserts. */
  predicate ValidSize(size: seq<nat>)
  {
    forall i :: 0 <= i < |size| ==> size[i] > 0
  }

  /** All positions updateCounter visits, in order. */
  function Walk(size: seq<nat>): (w: seq<seq<nat>>)
    requires ValidSize(size)
    ensures forall i :: 0 <= i < |w| ==> InBox(w[i], size)
  {
    ZerosFirst(size);
    WalkRanks(Zeros(|size|), size);
    WalkFrom(Zeros(|size|), size)
  }

  /** updateCounter visits each position of the field box exactly once, and nothing else. */
  lemma WalkExactlyOnce(size: seq<nat>)
    requires ValidSize(size)
    ensures |Walk(size)| == Product(size)
    ensures forall i, j :: 0 <= i < j < |Walk(size)| ==> Walk(size)[i] != Walk(size)[j]
    ensures forall p :: p in Walk(size) <==> InBox(p, size)
  {
    ZerosFirst(size);
    var w := Walk(size);
    WalkRanks(Zeros(|size|), size);
    forall p | InBox(p, size)
      ensures p in w
    {
      RankBound(p, size);
      var r := Rank(p, size);
      RankInjective(w[r], p, size);
    }
  }

  /** The field values at `ps`, in order. */
  function FieldValues(field: seq<nat> -> int, ps: seq<seq<nat>>): (vs: seq<int>)
    ensures |vs| == |ps| && forall i :: 0 <= i < |ps| ==> vs[i] == field(ps[i])
  {
    if ps == [] then [] else FieldValues(field, ps[..|ps| - 1]) + [field(ps[|ps| - 1])]
  }

  /** The inner `for` of updateCounter: one odometer step, reporting whether the position moved. */
  method Advance(pos: seq<nat>, size: seq<nat>) returns (pos': seq<nat>, moved: bool)
    requires InBox(pos, size)
    ensures moved <==> Next(pos, size).Some?
    ensures moved ==> pos' == Next(pos, size).value
    ensures !moved ==> pos' == pos
  {
    pos' := pos;
    moved := false;
    var d := 0;
    while d < |size| && !moved
      invariant d <= |size| && |pos'| == |pos|
      invariant forall i :: 0 <= i < d ==> pos[i] + 1 >= size[i]
      invariant !moved ==> pos' == pos
      invariant moved ==> d < |size| && pos[d] + 1 < size[d] && pos' == Zeros(d) + [pos[d] + 1] + pos[d + 1..]
      decreases |size| - d, if moved then 0 else 1
    {
      if pos'[d] + 1 < size[d] {
        pos' := pos'[d := pos'[d] + 1];
        var lower := 0;
        while lower < d
          invariant lower <= d && |pos'| == |pos| && pos'[d] == pos[d] + 1
          invariant forall i :: 0 <= i < lower ==> pos'[i] == 0
          invariant forall i :: lower <= i < |pos| && i != d ==> pos'[i] == pos[i]
        {
          if lower != d {
            pos' := pos'[lower := 0];
          }
          lower := lower + 1;
        }
        assert pos' == Zeros(d) + [pos[d] + 1] + pos[d + 1..];
        moved := true;
      } else {
        d := d + 1;
      }
    }
    if moved {
      NextAt(pos, size, d);
    } else {
      NextNone(pos, size);
    }
  }

  /** The step increments the first dimension `d` not at its end and zeroes the ones below. */
  lemma {:induction false} NextAt(pos: seq<nat>, size: seq<nat>, d: nat)
    requires |pos| == |size| && d < |pos|
    requires forall i :: 0 <= i < d ==> pos[i] + 1 >= size[i]
    requires pos[d] + 1 < size[d]
    ensures Next(pos, size) == Some(Zeros(d) + [pos[d] + 1] + pos[d + 1..])
  {
    if d > 0 {
      assert pos[0] + 1 >= size[0];
      NextAt(pos[1..], size[1..], d - 1);
      ZerosCons(d);
      assert pos[1..][d - 1] == pos[d] && pos[1..][d - 1 + 1..] == pos[d + 1..];
      assert [0] + Zeros(d - 1) + [pos[d] + 1] + pos[d + 1..] == [0] + (Zeros(d - 1) + [pos[d] + 1] + pos[d + 1..]);
    } else {
      assert Zeros(0) + [pos[0] + 1] + pos[1..] == [pos[0] + 1] + pos[1..];
    }
  }

  lemma ZerosCons(n: nat)
    requires n > 0
    ensures Zeros(n) == [0] + Zeros(n - 1)
  {
  }

  /** There is no step once every dimension is at its end. */
  lemma {:induction false} NextNone(pos: seq<nat>, size: seq<nat>)
    requires |pos| == |size|
    requires forall i :: 0 <= i < |pos| ==> pos[i] + 1 >= size[i]
    ensures Next(pos, size).None?
  {
    if pos != [] {
      NextNone(pos[1..], size[1..]);
    }
  }

  /** Histogram over an indexed counter, the counter every histogram of Carna uses. */
  class Histogram {
    const counter: IndexedCounter
    const field: seq<nat> -> int
    const fieldSize: seq<nat>

    /** The constructor asserts every component of the field size is positive. */
    constructor(field: seq<nat> -> int, fieldSize: seq<nat>, counter: IndexedCounter)
      requires ValidSize(fieldSize)
      requires forall p :: InBox(p, fieldSize) ==> counter.min <= field(p)
      ensures this.field == field && this.fieldSize == fieldSize && this.counter == counter
    {
      this.field := field;
      this.fieldSize := fieldSize;
      this.counter := counter;
    }

    ghost predicate Valid()
      reads this
    {
      ValidSize(fieldSize) && forall p :: InBox(p, fieldSize) ==> counter.min <= field(p)
    }

    /**
     * updateCounter: resets the counter, then counts the field value at
     * every position of the box; the counts do not depend on the counter's
     * previous state, so a second call gives the same counts.
     */
    method UpdateCounter()
      requires Valid()
      modifies counter
      ensures counter.data == IndexedCount(counter.min, FieldValues(field, Walk(fieldSize)))
    {
      CountField(counter, field, fieldSize);
    }
  }

  /** The loop of updateCounter: resets `counter`, then counts `field` at every position of the box in odometer order. */
  method CountField(counter: IndexedCounter, field: seq<nat> -> int, size: seq<nat>)
    requires ValidSize(size) && forall p :: InBox(p, size) ==> counter.min <= field(p)
    modifies counter
    ensures counter.data == IndexedCount(counter.min, FieldValues(field, Walk(size)))
  {
    counter.Reset();
    CountingStart(counter.min, field, size);
    var position := Zeros(|size|);
    ghost var seen: seq<seq<nat>> := [];
    var moved := true;
    while moved
      invariant Counting(counter.min, field, size, seen, position, moved, counter.data)
      decreases if moved then Product(size) - Rank(position, size) + 1 else 0
    {
      ghost var before := counter.data;
      counter.Increment(field(position));
      ghost var previous := position;
      position, moved := Advance(position, size);
      CountStep(counter.min, field, size, seen, previous, position, moved, before);
      seen := seen + [previous];
    }
  }

  /**
   * The state of updateCounter's loop: `seen` are the positions counted so
   * far, the walk goes on from `position` while `moved`, and the counter
   * holds the counts of the values at `seen`.
   */
  ghost predicate Counting(min: int, field: seq<nat> -> int, size: seq<nat>, seen: seq<seq<nat>>,
                           position: seq<nat>, moved: bool, data: seq<nat>)
  {
    && ValidSize(size)
    && (forall p :: InBox(p, size) ==> min <= field(p))
    && InBox(position, size)
    && Rank(position, size) < Product(size)
    && (forall i :: 0 <= i < |seen| ==> InBox(seen[i], size))
    && (moved ==> seen + WalkFrom(position, size) == Walk(size))
    && (!moved ==> seen == Walk(size))
    && data == IndexedCount(min, FieldValues(field, seen))
  }

  /** Counting the value at `position` and stepping on keeps the loop state. */
  lemma CountStep(min: int, field: seq<nat> -> int, size: seq<nat>, seen: seq<seq<nat>>,
                  position: seq<nat>, position': seq<nat>, moved': bool, data: seq<nat>)
    requires Counting(min, field, size, seen, position, true, data)
    requires moved' <==> Next(position, size).Some?
    requires moved' ==> position' == Next(position, size).value
    requires !moved' ==> position' == position
    ensures Counting(min, field, size, seen + [position], position', moved', IndexedIncrement(data, field(position) - min))
    ensures moved' ==> Rank(position', size) == Rank(position, size) + 1
  {
    NextRank(position, size);
    RankBound(position', size);
    CountOneMore(min, field, seen, position);
    WalkStep(size, seen, position, position', moved');
  }

  /** updateCounter starts at the zero position with an empty counter. */
  lemma CountingStart(min: int, field: seq<nat> -> int, size: seq<nat>)
    requires ValidSize(size) && forall p :: InBox(p, size) ==> min <= field(p)
    ensures Counting(min, field, size, [], Zeros(|size|), true, [])
  {
    ZerosFirst(size);
    RankBound(Zeros(|size|), size);
    assert [] + WalkFrom(Zeros(|size|), size) == Walk(size);
  }

  /**
   * The histogram updateCounter leaves: every key of the key type reads the
   * number of positions of the box where the field has that value, and the
   * counts add up to the number of positions.
   */
  lemma HistogramCounts(min: int, field: seq<nat> -> int, size: seq<nat>, v: int)
    requires ValidSize(size) && forall p :: InBox(p, size) ==> min <= field(p)
    requires min <= v
    ensures IndexedRead(IndexedCount(min, FieldValues(field, Walk(size))), v - min)
            == multiset(FieldValues(field, Walk(size)))[v]
    ensures |multiset(FieldValues(field, Walk(size)))| == Product(size)
  {
    IndexedCounts(min, FieldValues(field, Walk(size)), v);
    WalkExactlyOnce(size);
  }

  /** The walk from `position` is `position` followed by the walk from its successor. */
  lemma WalkStep(size: seq<nat>, seen: seq<seq<nat>>, position: seq<nat>, position': seq<nat>, moved': bool)
    requires ValidSize(size) && InBox(position, size)
    requires seen + WalkFrom(position, size) == Walk(size)
    requires moved' <==> Next(position, size).Some?
    requires moved' ==> position' == Next(position, size).value
    ensures moved' ==> InBox(position', size) && seen + [position] + WalkFrom(position', size) == Walk(size)
    ensures !moved' ==> seen + [position] == Walk(size)
  {
    NextRank(position, size);
    RankBound(position, size);
    if moved' {
      assert WalkFrom(position, size) == [position] + WalkFrom(position', size);
      assert seen + [position] + WalkFrom(position', size) == seen + ([position] + WalkFrom(position', size));
    } else {
      assert WalkFrom(position, size) == [position];
    }
  }

  /** Counting the value at one more position. */
  lemma CountOneMore(min: int, field: seq<nat> -> int, seen: seq<seq<nat>>, pos: seq<nat>)
    requires forall i :: 0 <= i < |seen| ==> min <= field(seen[i])
    requires min <= field(pos)
    ensures IndexedCount(min, FieldValues(field, seen + [pos]))
            == IndexedIncrement(IndexedCount(min, FieldValues(field, seen)), field(pos) - min)
  {
    var vs := FieldValues(field, seen + [pos]);
    assert (seen + [pos])[..|seen|] == seen;
    assert vs[..|vs| - 1] == FieldValues(field, seen);
  }
}
