/**
 The two-stack history behind the sketchpad's buttons, on values: `committed`
 is the list of lines on screen (drawing order, last drawn at the end) and
 `redo` is the redo stack (its top at the end). The type of the entries is left
 open; the sketchpad instantiates it with its line objects, so that the laws
 below speak about object identities, not about the points inside them.
 */
module UndoRedo {

  datatype History<T> = History(committed: seq<T>, redo: seq<T>)

  /** Every entry the history holds, on screen or on the redo stack. */
  ghost function Pool<T>(h: History<T>): multiset<T>
  {
    multiset(h.committed + h.redo)
  }

  /** No entry occurs twice anywhere in the history. */
  ghost predicate Distinct<T>(s: seq<T>)
  {
    forall i, j :: 0 <= i < j < |s| ==> s[i] != s[j]
  }

  ghost predicate NoAliases<T>(h: History<T>)
  {
    Distinct(h.committed + h.redo)
  }

  /** A press: the new entry goes on top of the committed list and the redo stack is dropped. */
  function Commit<T>(h: History<T>, x: T): (r: History<T>)
    ensures r.redo == []
    ensures Pool(r) == multiset(h.committed) + multiset{x}
  {
    History(h.committed + [x], [])
  }

  /** Undo: the last committed entry moves to the top of the redo stack; nothing happens on an empty list. */
  function Undo<T>(h: History<T>): (r: History<T>)
    ensures r == h <==> h.committed == []
  {
    if h.committed == [] then h
    else
      var n := |h.committed|;
      History(h.committed[..n - 1], h.redo + [h.committed[n - 1]])
  }

  /** Redo: the top of the redo stack moves to the end of the committed list; nothing happens on an empty stack. */
  function Redo<T>(h: History<T>): (r: History<T>)
    ensures r == h <==> h.redo == []
  {
    if h.redo == [] then h
    else
      var n := |h.redo|;
      History(h.committed + [h.redo[n - 1]], h.redo[..n - 1])
  }

  /**
   Clear: the committed list is emptied; the redo stack is kept. Exactly the
   committed entries leave the history, and nothing is left to undo.
   */
  function Clear<T>(h: History<T>): (r: History<T>)
    ensures Pool(h) == multiset(h.committed) + Pool(r)
    ensures Undo(r) == r
  {
    History([], h.redo)
  }

  /** Undo only moves an entry between the two lists: the history holds the same entries as before. */
  lemma UndoKeepsPool<T>(h: History<T>)
    ensures Pool(Undo(h)) == Pool(h)
  {
    if h.committed != [] {
      var n := |h.committed|;
      assert h.committed == h.committed[..n - 1] + [h.committed[n - 1]];
      assert Undo(h).committed + Undo(h).redo == h.committed[..n - 1] + h.redo + [h.committed[n - 1]];
    }
  }

  /** Redo only moves an entry between the two lists: the history holds the same entries as before. */
  lemma RedoKeepsPool<T>(h: History<T>)
    ensures Pool(Redo(h)) == Pool(h)
  {
    if h.redo != [] {
      var n := |h.redo|;
      assert h.redo == h.redo[..n - 1] + [h.redo[n - 1]];
      assert h.committed + h.redo == h.committed + h.redo[..n - 1] + [h.redo[n - 1]];
      assert Redo(h).committed + Redo(h).redo == h.committed + [h.redo[n - 1]] + h.redo[..n - 1];
    }
  }

  lemma UndoThenRedo<T>(h: History<T>)
    requires h.committed != []
    ensures Redo(Undo(h)) == h
  {
  }

  lemma RedoThenUndo<T>(h: History<T>)
    requires h.redo != []
    ensures Undo(Redo(h)) == h
  {
  }

  /** Undo after a clear does nothing; redo after a clear brings back the top of the redo stack. */
  lemma ClearThenUndoRedo<T>(h: History<T>)
    ensures Undo(Clear(h)) == Clear(h)
    ensures h.redo != [] ==> Redo(Clear(h)).committed == [h.redo[|h.redo| - 1]]
  {
  }

  function Reversed<T>(s: seq<T>): (r: seq<T>)
    ensures |r| == |s|
  {
    if s == [] then [] else Reversed(s[1..]) + [s[0]]
  }

  /** `n` presses of Undo in a row. */
  function UndoTimes<T>(h: History<T>, n: nat): History<T>
  {
    if n == 0 then h else Undo(UndoTimes(h, n - 1))
  }

  /** `n` presses of Redo in a row. */
  function RedoTimes<T>(h: History<T>, n: nat): History<T>
    decreases n
  {
    if n == 0 then h else RedoTimes(Redo(h), n - 1)
  }

  /**
   After `n` undos (no more than there are lines) the last `n` lines are gone
   from the committed list, and the redo stack holds them in reverse order on
   top of what it held: the most recently drawn line is deepest.
   */
  lemma {:induction false} UndoTimesMovesSuffix<T>(h: History<T>, n: nat)
    requires n <= |h.committed|
    ensures var m := |h.committed|;
      UndoTimes(h, n) == History(h.committed[..m - n], h.redo + Reversed(h.committed[m - n..]))
  {
    var m := |h.committed|;
    if n == 0 {
      assert h.committed[..m] == h.committed;
      assert h.committed[m..] == [];
    } else {
      UndoTimesMovesSuffix(h, n - 1);
      var c := h.committed;
      var prev := UndoTimes(h, n - 1);
      assert prev.committed == c[..m - n + 1] && prev.redo == h.redo + Reversed(c[m - n + 1..]);
      assert UndoTimes(h, n) == Undo(prev);
      assert Undo(prev) == History(prev.committed[..m - n], prev.redo + [prev.committed[m - n]]);
      assert c[..m - n + 1][..m - n] == c[..m - n];
      assert c[..m - n + 1][m - n] == c[m - n];
      assert c[m - n..][1..] == c[m - n + 1..];
      assert Reversed(c[m - n..]) == Reversed(c[m - n + 1..]) + [c[m - n]];
      assert prev.redo + [c[m - n]] == h.redo + Reversed(c[m - n..]);
    }
  }

  /** Undoing beyond the committed list stops at the empty list: the extra presses do nothing. */
  lemma {:induction false} UndoTimesSaturates<T>(h: History<T>, n: nat)
    requires n >= |h.committed|
    ensures UndoTimes(h, n) == UndoTimes(h, |h.committed|)
    ensures UndoTimes(h, n).committed == []
  {
    var m := |h.committed|;
    UndoTimesMovesSuffix(h, m);
    assert h.committed[..m - m] == [];
    if n > m {
      UndoTimesSaturates(h, n - 1);
      assert UndoTimes(h, n) == Undo(UndoTimes(h, n - 1));
    }
  }

  /** `n` undos followed by `n` redos give back the history exactly. */
  lemma {:induction false} UndoTimesThenRedoTimes<T>(h: History<T>, n: nat)
    requires n <= |h.committed|
    ensures RedoTimes(UndoTimes(h, n), n) == h
  {
    if n > 0 {
      var before := UndoTimes(h, n - 1);
      UndoTimesMovesSuffix(h, n - 1);
      assert |before.committed| == |h.committed| - (n - 1) > 0;
      UndoThenRedo(before);
      UndoTimesThenRedoTimes(h, n - 1);
    }
  }

  /** New work after any number of undos drops every undone line: redo has nothing left. */
  lemma CommitAfterUndos<T>(h: History<T>, n: nat, x: T)
    requires n <= |h.committed|
    ensures var m := |h.committed|;
      Commit(UndoTimes(h, n), x) == History(h.committed[..m - n] + [x], [])
  {
    UndoTimesMovesSuffix(h, n);
  }

  /** A run of presses, one per entry of `xs`, in order. */
  function CommitAll<T>(h: History<T>, xs: seq<T>): History<T>
  {
    if xs == [] then h else Commit(CommitAll(h, xs[..|xs| - 1]), xs[|xs| - 1])
  }

  /** A run of presses appends its entries to the committed list and leaves the redo stack empty. */
  lemma {:induction false} CommitAllAppends<T>(h: History<T>, xs: seq<T>)
    requires xs != []
    ensures CommitAll(h, xs) == History(h.committed + xs, [])
  {
    var init := xs[..|xs| - 1];
    if init != [] {
      CommitAllAppends(h, init);
    } else {
      assert xs == [xs[0]];
    }
    assert init + [xs[|xs| - 1]] == xs;
    assert h.committed + init + [xs[|xs| - 1]] == h.committed + xs;
  }

  /**
   `n` presses followed by `n` undos: the committed list is back to what it
   was, and the redo stack holds exactly the `n` new entries, the first one on
   top. Whatever the redo stack held before is gone.
   */
  lemma {:induction false} CommitsThenUndos<T>(h: History<T>, xs: seq<T>)
    requires xs != []
    ensures UndoTimes(CommitAll(h, xs), |xs|) == History(h.committed, Reversed(xs))
  {
    CommitAllAppends(h, xs);
    var after := CommitAll(h, xs);
    UndoTimesMovesSuffix(after, |xs|);
    var m := |after.committed|;
    assert after.committed[..m - |xs|] == h.committed;
    assert after.committed[m - |xs|..] == xs;
  }

  lemma {:induction false} DistinctConcat<T>(a: seq<T>, b: seq<T>)
    ensures Distinct(a + b) <==>
      Distinct(a) && Distinct(b) && forall i, j :: 0 <= i < |a| && 0 <= j < |b| ==> a[i] != b[j]
  {
    if Distinct(a + b) {
      forall i, j | 0 <= i < j < |a| ensures a[i] != a[j] {
        assert (a + b)[i] == a[i] && (a + b)[j] == a[j];
      }
      forall i, j | 0 <= i < |a| && 0 <= j < |b| ensures a[i] != b[j] {
        assert (a + b)[i] == a[i] && (a + b)[|a| + j] == b[j];
      }
      forall i, j | 0 <= i < j < |b| ensures b[i] != b[j] {
        assert (a + b)[|a| + i] == b[i] && (a + b)[|a| + j] == b[j];
      }
    }
    if Distinct(a) && Distinct(b) && forall i, j :: 0 <= i < |a| && 0 <= j < |b| ==> a[i] != b[j] {
      forall i, j | 0 <= i < j < |a + b| ensures (a + b)[i] != (a + b)[j] {
        if j < |a| {
          assert (a + b)[i] == a[i] && (a + b)[j] == a[j];
        } else if i < |a| {
          assert (a + b)[i] == a[i] && (a + b)[j] == b[j - |a|];
        } else {
          assert (a + b)[i] == b[i - |a|] && (a + b)[j] == b[j - |a|];
        }
      }
    }
  }

  /** A press with an entry found nowhere in the history keeps every entry unique. */
  lemma CommitKeepsNoAliases<T>(h: History<T>, x: T)
    requires NoAliases(h)
    requires x !in h.committed && x !in h.redo
    ensures NoAliases(Commit(h, x))
  {
    DistinctConcat(h.committed, h.redo);
    DistinctConcat(h.committed, [x]);
    assert h.committed + [x] + [] == h.committed + [x];
  }

  lemma UndoKeepsNoAliases<T>(h: History<T>)
    requires NoAliases(h)
    ensures NoAliases(Undo(h))
  {
    if h.committed != [] {
      var n := |h.committed|;
      var init, x := h.committed[..n - 1], h.committed[n - 1];
      assert h.committed == init + [x];
      DistinctConcat(h.committed, h.redo);
      DistinctConcat(init, [x]);
      DistinctConcat(init, h.redo);
      DistinctConcat(init + h.redo, [x]);
      assert Undo(h).committed + Undo(h).redo == init + h.redo + [x];
    }
  }

  lemma RedoKeepsNoAliases<T>(h: History<T>)
    requires NoAliases(h)
    ensures NoAliases(Redo(h))
  {
    if h.redo != [] {
      var n := |h.redo|;
      var rest, x := h.redo[..n - 1], h.redo[n - 1];
      assert h.redo == rest + [x];
      DistinctConcat(h.committed, h.redo);
      DistinctConcat(rest, [x]);
      DistinctConcat(h.committed, rest);
      DistinctConcat(h.committed, [x]);
      DistinctConcat(h.committed + [x], rest);
      assert Redo(h).committed + Redo(h).redo == h.committed + [x] + rest;
    }
  }

  lemma ClearKeepsNoAliases<T>(h: History<T>)
    requires NoAliases(h)
    ensures NoAliases(Clear(h))
  {
    DistinctConcat(h.committed, h.redo);
    assert Clear(h).committed + Clear(h).redo == h.redo;
  }
}
