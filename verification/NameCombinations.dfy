/** The backtracking enumeration of name combinations
    (openapi/internal/schema/schema.go). Its branches append to slices that may
    share one backing array, so slices are modelled with their storage. */
module NameCombinations {

  // ------------------------------------------------------------ Go slices

  /** The first `len` elements of a backing array; its capacity is the array's length. */
  datatype GoSlice = GoSlice(backing: array<string>, len: nat)

  ghost predicate Sliced(s: GoSlice) {
    s.len <= s.backing.Length
  }

  ghost function View(s: GoSlice): seq<string>
    requires Sliced(s)
    reads s.backing
  {
    s.backing[..s.len]
  }

  /** `append`: in place while there is room, otherwise into a new, larger array. */
  method Append(s: GoSlice, x: string) returns (r: GoSlice)
    requires Sliced(s)
    modifies s.backing
    ensures Sliced(r) && View(r) == old(View(s)) + [x]
    ensures View(s) == old(View(s))
    ensures r.backing == s.backing || fresh(r.backing)
  {
    if s.len < s.backing.Length {
      s.backing[s.len] := x;
      return GoSlice(s.backing, s.len + 1);
    }
    var capacity: nat :| capacity > s.len;
    var grown := new string[capacity](_ => "");
    for i := 0 to s.len
      invariant grown[..i] == s.backing[..i]
      invariant s.backing[..] == old(s.backing[..])
    {
      grown[i] := s.backing[i];
    }
    grown[s.len] := x;
    return GoSlice(grown, s.len + 1);
  }

  // --------------------------------------------------------- index tuples

  /** Puts one index in front of every tuple. */
  function Prefixed(i: nat, tuples: seq<seq<nat>>): (r: seq<seq<nat>>)
    ensures |r| == |tuples| && forall j :: 0 <= j < |tuples| ==> r[j] == [i] + tuples[j]
  {
    seq(|tuples|, j requires 0 <= j < |tuples| => [i] + tuples[j])
  }

  /** The increasing `k`-tuples of indices from `start` up to `n`, in lexical order. */
  function Tuples(n: nat, start: nat, k: nat): seq<seq<nat>>
    requires start <= n
    decreases n - start
  {
    if k == 0 then [[]]
    else if start + k > n then []
    else Prefixed(start, Tuples(n, start + 1, k - 1)) + Tuples(n, start + 1, k)
  }

  ghost predicate Increasing(t: seq<nat>, start: nat, n: nat) {
    && (forall i :: 0 <= i < |t| ==> start <= t[i] < n)
    && (forall i, j :: 0 <= i < j < |t| ==> t[i] < t[j])
  }

  ghost predicate TupleLess(a: seq<nat>, b: seq<nat>) {
    if a == [] || b == [] then a == [] && b != []
    else a[0] < b[0] || (a[0] == b[0] && TupleLess(a[1..], b[1..]))
  }

  /** Only increasing tuples are listed. */
  lemma {:induction false} TuplesIncreasing(n: nat, start: nat, k: nat, p: nat)
    requires start <= n && p < |Tuples(n, start, k)|
    ensures |Tuples(n, start, k)[p]| == k && Increasing(Tuples(n, start, k)[p], start, n)
    decreases n - start
  {
    if k > 0 {
      var with := Tuples(n, start + 1, k - 1);
      if p < |with| { TuplesIncreasing(n, start + 1, k - 1, p); }
      else { TuplesIncreasing(n, start + 1, k, p - |with|); }
    }
  }

  /** Every increasing tuple is listed. */
  lemma {:induction false} TuplesComplete(n: nat, start: nat, t: seq<nat>) returns (p: nat)
    requires start <= n && Increasing(t, start, n)
    ensures p < |Tuples(n, start, |t|)| && Tuples(n, start, |t|)[p] == t
    decreases n - start
  {
    if t == [] {
      p := 0;
    } else {
      hide Increasing, Tuples;
      IncreasingFits(t, start, n);
      IncreasingTail(t, start, n);
      if t[0] == start {
        p := TuplesComplete(n, start + 1, t[1..]);
        WithAt(n, start, |t|, p);
        assert t == [start] + t[1..];
      } else {
        var q := TuplesComplete(n, start + 1, t);
        WithoutAt(n, start, |t|, q);
        p := |Tuples(n, start + 1, |t| - 1)| + q;
      }
    }
  }

  /** First the tuples that start with `start`, then those that do not. */
  lemma WithAt(n: nat, start: nat, k: nat, p: nat)
    requires k > 0 && start + k <= n && p < |Tuples(n, start + 1, k - 1)|
    ensures p < |Tuples(n, start, k)| && Tuples(n, start, k)[p] == [start] + Tuples(n, start + 1, k - 1)[p]
  {
    hide Tuples;
    TuplesSplit(n, start, k);
  }

  lemma WithoutAt(n: nat, start: nat, k: nat, q: nat)
    requires k > 0 && start + k <= n && q < |Tuples(n, start + 1, k)|
    ensures var p := |Tuples(n, start + 1, k - 1)| + q;
            p < |Tuples(n, start, k)| && Tuples(n, start, k)[p] == Tuples(n, start + 1, k)[q]
  {
    hide Tuples;
    TuplesSplit(n, start, k);
  }

  lemma TuplesSplit(n: nat, start: nat, k: nat)
    requires k > 0 && start + k <= n
    ensures Tuples(n, start, k) == Prefixed(start, Tuples(n, start + 1, k - 1)) + Tuples(n, start + 1, k)
  {
  }

  /** An increasing tuple starts with `start`, or later. */
  lemma IncreasingTail(t: seq<nat>, start: nat, n: nat)
    requires t != [] && Increasing(t, start, n)
    ensures if t[0] == start then Increasing(t[1..], start + 1, n) else Increasing(t, start + 1, n)
  {
  }

  lemma {:induction false} IncreasingFits(t: seq<nat>, start: nat, n: nat)
    requires start <= n && Increasing(t, start, n)
    ensures start + |t| <= n
  {
    if t != [] { IncreasingFits(t[1..], t[0] + 1, n); }
  }

  /** Strictly in lexical order, so none is listed twice. */
  lemma {:induction false} TuplesAscend(n: nat, start: nat, k: nat, p: nat, q: nat)
    requires start <= n && p < q < |Tuples(n, start, k)|
    ensures TupleLess(Tuples(n, start, k)[p], Tuples(n, start, k)[q])
    decreases n - start
  {
    if k > 0 {
      var with, without := Tuples(n, start + 1, k - 1), Tuples(n, start + 1, k);
      if q < |with| {
        TuplesAscend(n, start + 1, k - 1, p, q);
        assert ([start] + with[p])[1..] == with[p] && ([start] + with[q])[1..] == with[q];
      } else if |with| <= p {
        TuplesAscend(n, start + 1, k, p - |with|, q - |with|);
      } else {
        TuplesIncreasing(n, start + 1, k, q - |with|);
        assert without[q - |with|][0] > start;
      }
    }
  }

  function Binomial(n: nat, k: nat): nat {
    if k == 0 then 1 else if n == 0 then 0 else Binomial(n - 1, k - 1) + Binomial(n - 1, k)
  }

  lemma {:induction false} BinomialZero(n: nat, k: nat)
    requires n < k
    ensures Binomial(n, k) == 0
  {
    if n > 0 {
      BinomialZero(n - 1, k - 1);
      BinomialZero(n - 1, k);
    }
  }

  lemma {:induction false} TuplesCount(n: nat, start: nat, k: nat)
    requires start <= n
    ensures |Tuples(n, start, k)| == Binomial(n - start, k)
    decreases n - start
  {
    if k > 0 {
      if start + k > n {
        BinomialZero(n - start, k);
      } else {
        TuplesCount(n, start + 1, k - 1);
        TuplesCount(n, start + 1, k);
      }
    }
  }

  // ---------------------------------------------------------- combinations

  function Picked(names: seq<string>, t: seq<nat>): (r: seq<string>)
    requires forall i :: 0 <= i < |t| ==> t[i] < |names|
    ensures |r| == |t| && forall i :: 0 <= i < |t| ==> r[i] == names[t[i]]
  {
    seq(|t|, i requires 0 <= i < |t| => names[t[i]])
  }

  ghost predicate Within(tuples: seq<seq<nat>>, n: nat) {
    forall p, i :: 0 <= p < |tuples| && 0 <= i < |tuples[p]| ==> tuples[p][i] < n
  }

  /** Each tuple's names, behind the names already selected. */
  ghost function Combos(names: seq<string>, selected: seq<string>, tuples: seq<seq<nat>>): (r: seq<seq<string>>)
    requires Within(tuples, |names|)
    ensures |r| == |tuples| && forall p :: 0 <= p < |tuples| ==> r[p] == selected + Picked(names, tuples[p])
  {
    seq(|tuples|, p requires 0 <= p < |tuples| => selected + Picked(names, tuples[p]))
  }

  lemma TuplesWithin(n: nat, start: nat, k: nat)
    requires start <= n
    ensures Within(Tuples(n, start, k), n)
  {
    forall p, i | 0 <= p < |Tuples(n, start, k)| && 0 <= i < |Tuples(n, start, k)[p]|
      ensures Tuples(n, start, k)[p][i] < n
    {
      TuplesIncreasing(n, start, k, p);
    }
  }

  /** One round of the loop: the tuples that begin with `start`, then the rest. */
  lemma CombosSplit(names: seq<string>, selected: seq<string>, start: nat, k: nat)
    requires k > 0 && start + k <= |names|
    requires Within(Tuples(|names|, start, k), |names|)
    requires Within(Tuples(|names|, start + 1, k - 1), |names|) && Within(Tuples(|names|, start + 1, k), |names|)
    ensures Combos(names, selected, Tuples(|names|, start, k)) ==
            Combos(names, selected + [names[start]], Tuples(|names|, start + 1, k - 1)) +
            Combos(names, selected, Tuples(|names|, start + 1, k))
  {
    var with, without := Tuples(|names|, start + 1, k - 1), Tuples(|names|, start + 1, k);
    var all := Tuples(|names|, start, k);
    var left := Combos(names, selected, all);
    var right := Combos(names, selected + [names[start]], with) + Combos(names, selected, without);
    forall p | 0 <= p < |all| ensures left[p] == right[p] {
      if p < |with| {
        assert all[p] == [start] + with[p];
        PickedFirst(names, selected, start, with[p]);
      } else {
        assert all[p] == without[p - |with|];
      }
    }
  }

  lemma PickedFirst(names: seq<string>, selected: seq<string>, start: nat, t: seq<nat>)
    requires start < |names| && forall i :: 0 <= i < |t| ==> t[i] < |names|
    ensures selected + Picked(names, [start] + t) == selected + [names[start]] + Picked(names, t)
  {
    assert Picked(names, [start] + t) == [names[start]] + Picked(names, t);
  }

  /** With nothing left to select, the selection itself is the one completion. */
  lemma CombosOne(names: seq<string>, selected: seq<string>, start: nat)
    requires start <= |names|
    ensures Within(Tuples(|names|, start, 0), |names|)
    ensures Combos(names, selected, Tuples(|names|, start, 0)) == [selected]
  {
    assert selected + Picked(names, []) == selected;
  }

  lemma CombosNone(names: seq<string>, selected: seq<string>, start: nat, k: nat)
    requires start <= |names| < start + k
    ensures Within(Tuples(|names|, start, k), |names|)
    ensures Combos(names, selected, Tuples(|names|, start, k)) == []
  {
  }

  lemma Regroup<T>(a: seq<T>, b: seq<T>, c: seq<T>)
    ensures a + (b + c) == a + b + c
  {
  }

  /** The closure `walk` with the result it captures. */
  class Walker {
    const names: seq<string>
    const count: nat
    var combinations: seq<seq<string>>

    constructor (names: seq<string>, count: nat)
      ensures this.names == names && this.count == count && combinations == []
    {
      this.names, this.count, combinations := names, count, [];
    }

    /** Appends, in lexical order, every completion of `selected` by later
        names. Whatever the calls write beyond the selected prefix of a shared
        array, the prefix itself and the combinations found stay intact. */
    method Walk(start: nat, selected: GoSlice)
      requires start <= |names| && Sliced(selected) && selected.len <= count
      modifies this`combinations, selected.backing
      ensures Within(Tuples(|names|, start, count - selected.len), |names|)
      ensures combinations == old(combinations) +
                Combos(names, old(View(selected)), Tuples(|names|, start, count - selected.len))
      ensures View(selected) == old(View(selected))
      decreases |names| - start
    {
      hide Tuples, Combos, Within, Picked;
      ghost var chosen := View(selected);
      TuplesWithin(|names|, start, count - selected.len);
      if selected.len == count {
        CombosOne(names, chosen, start);
        combinations := combinations + [selected.backing[..selected.len]];
        return;
      }
      var remaining := count - selected.len;
      ghost var found := combinations;
      ghost var goal := found + Combos(names, chosen, Tuples(|names|, start, remaining));
      var i := start;
      while i + remaining <= |names|
        invariant start <= i <= |names|
        invariant View(selected) == chosen
        invariant Within(Tuples(|names|, i, remaining), |names|)
        invariant combinations + Combos(names, chosen, Tuples(|names|, i, remaining)) == goal
        decreases |names| - i
      {
        TuplesWithin(|names|, i + 1, remaining - 1);
        TuplesWithin(|names|, i + 1, remaining);
        CombosSplit(names, chosen, i, remaining);
        Regroup(combinations, Combos(names, chosen + [names[i]], Tuples(|names|, i + 1, remaining - 1)),
                Combos(names, chosen, Tuples(|names|, i + 1, remaining)));
        var longer := Append(selected, names[i]);
        Walk(i + 1, longer);
        assert View(longer)[..selected.len] == chosen;
        i := i + 1;
      }
      CombosNone(names, chosen, i, remaining);
    }
  }

  /** All combinations of `count` names, in index order. */
  method ListCombinations(names: seq<string>, count: int) returns (combinations: seq<seq<string>>)
    ensures count <= 0 || count > |names| ==> combinations == []
    ensures 0 < count <= |names| ==>
      Within(Tuples(|names|, 0, count), |names|) && combinations == Combos(names, [], Tuples(|names|, 0, count))
  {
    if count <= 0 || count > |names| { return []; }
    var walker := new Walker(names, count);
    var empty := new string[0];
    walker.Walk(0, GoSlice(empty, 0));
    combinations := walker.combinations;
  }
}
