/**
 One key of a store that is kept in memory and written to its file as a whole: what the memory and the
 file hold for the key, from the changes, writes and restarts alone.
 */
module Journal {

  /** `Set` changes the key, `Touch` another one; either writes the whole file, if that succeeds. */
  datatype Mark<+V> = Set(value: V, written: bool) | Touch(written: bool) | Reboot | Other

  /** What memory and file hold for the key. */
  datatype Copies<+V> = Copies(mem: V, file: V)

  function Noted<V>(c: Copies<V>, m: Mark<V>): Copies<V> {
    match m
    case Set(v, written) => Copies(v, if written then v else c.file)
    case Touch(written) => Copies(c.mem, if written then c.mem else c.file)
    case Reboot => Copies(c.file, c.file)
    case Other => c
  }

  function Played<V>(ms: seq<Mark<V>>, init: V): Copies<V> {
    if ms == [] then Copies(init, init) else Noted(Played(ms[..|ms| - 1], init), ms[|ms| - 1])
  }

  lemma PlayedNext<V>(ms: seq<Mark<V>>, init: V)
    requires ms != []
    ensures var n := |ms| - 1; Played(ms, init) == Noted(Played(ms[..n], init), ms[n])
  {
  }

  predicate Writes<V>(m: Mark<V>) {
    (m.Set? && m.written) || (m.Touch? && m.written)
  }

  /** From mark `i` on and before mark `r`, the file was written. */
  ghost predicate Saved<V>(ms: seq<Mark<V>>, i: int, r: int) {
    exists k :: 0 <= k < |ms| && i <= k < r && Writes(ms[k])
  }

  /** Mark `i` sets the key, and no restart came before the file was written again. */
  ghost predicate Stands<V>(ms: seq<Mark<V>>, i: int) {
    0 <= i < |ms| && ms[i].Set? && forall r :: 0 <= r < |ms| && i < r && ms[r].Reboot? ==> Saved(ms, i, r)
  }

  /** Nor would a restart now, if `file` is asked about. */
  ghost predicate Holds<V>(ms: seq<Mark<V>>, i: int, file: bool) {
    Stands(ms, i) && (file ==> Saved(ms, i, |ms|))
  }

  /** Mark `i` is the latest that holds. */
  ghost predicate IsLatest<V>(ms: seq<Mark<V>>, i: int, file: bool) {
    Holds(ms, i, file) && forall j :: i < j ==> !Holds(ms, j, file)
  }

  /** The value the latest mark set, or the initial one if none holds. */
  ghost predicate Shows<V>(ms: seq<Mark<V>>, init: V, file: bool, v: V) {
    (exists i :: IsLatest(ms, i, file) && ms[i].value == v) || (v == init && forall i :: !Holds(ms, i, file))
  }

  lemma SavedPrefix<V>(ms: seq<Mark<V>>, k: nat, i: int, r: int)
    requires r <= k <= |ms|
    ensures Saved(ms[..k], i, r) <==> Saved(ms, i, r)
  {
    if Saved(ms, i, r) {
      var j :| 0 <= j < |ms| && i <= j < r && Writes(ms[j]);
      assert Writes(ms[..k][j]);
    }
    if Saved(ms[..k], i, r) {
      var j :| 0 <= j < k && i <= j < r && Writes(ms[..k][j]);
      assert Writes(ms[j]);
    }
  }

  lemma SavedNext<V>(ms: seq<Mark<V>>, i: int)
    requires ms != [] && i < |ms|
    ensures Saved(ms, i, |ms|) <==> Saved(ms, i, |ms| - 1) || Writes(ms[|ms| - 1])
  {
    hide Writes;
    if Writes(ms[|ms| - 1]) {
      assert Saved(ms, i, |ms|);
    }
  }

  lemma StandsNext<V>(ms: seq<Mark<V>>, i: int)
    requires ms != [] && i < |ms| - 1
    ensures var n := |ms| - 1;
      Stands(ms, i) <==> Stands(ms[..n], i) && (ms[n].Reboot? ==> Saved(ms[..n], i, n))
  {
    var n := |ms| - 1;
    forall r | 0 <= r <= n ensures Saved(ms[..n], i, r) <==> Saved(ms, i, r) {
      SavedPrefix(ms, n, i, r);
    }
    hide Saved;
    if Stands(ms[..n], i) && (ms[n].Reboot? ==> Saved(ms[..n], i, n)) {
      forall r | 0 <= r < |ms| && i < r && ms[r].Reboot? ensures Saved(ms, i, r) {
        if r < n {
          assert ms[..n][r].Reboot?;
        }
      }
    }
    if Stands(ms, i) {
      forall r | 0 <= r < n && i < r && ms[..n][r].Reboot? ensures Saved(ms[..n], i, r) {
        assert ms[r].Reboot?;
      }
    }
  }

  /** What the last mark does to the marks before it. */
  lemma HoldsNext<V>(ms: seq<Mark<V>>, i: int, file: bool)
    requires ms != []
    ensures var n := |ms| - 1; var m := ms[n];
      Holds(ms, i, file) <==>
        if i < n then Holds(ms[..n], i, m.Reboot? || (file && !Writes(m)))
        else i == n && m.Set? && (file ==> Writes(m))
  {
    var n := |ms| - 1;
    if i < n {
      StandsNext(ms, i);
      SavedNext(ms, i);
      SavedPrefix(ms, n, i, n);
      hide Stands, Saved;
    } else if i == n {
      SavedNext(ms, i);
      assert !Saved(ms, n, n);
    }
  }

  lemma ShowsNext<V>(ms: seq<Mark<V>>, init: V, file: bool, v: V)
    requires ms != []
    ensures var n := |ms| - 1; var m := ms[n];
      (if m.Set? && (file ==> m.written) then v == m.value else Shows(ms[..n], init, m.Reboot? || (file && !Writes(m)), v))
      ==> Shows(ms, init, file, v)
  {
    var n := |ms| - 1;
    var front, m := ms[..n], ms[n];
    var f := m.Reboot? || (file && !Writes(m));
    forall i ensures Holds(ms, i, file) <==>
      if i < n then Holds(front, i, f) else i == n && m.Set? && (file ==> Writes(m))
    {
      HoldsNext(ms, i, file);
    }
    forall i ensures Holds(front, i, f) ==> 0 <= i < n {
    }
    hide Holds;
    if m.Set? && (file ==> m.written) && v == m.value {
      assert IsLatest(ms, n, file);
    } else if !(m.Set? && (file ==> m.written)) && Shows(front, init, f, v) {
      if i :| IsLatest(front, i, f) && front[i].value == v {
        assert Holds(front, i, f) && front[i] == ms[i];
        assert IsLatest(ms, i, file);
      }
    }
  }

  /** Memory and file hold exactly what history says, whichever writes fail. */
  lemma {:induction false} PlayedIsHistory<V>(ms: seq<Mark<V>>, init: V)
    ensures Shows(ms, init, false, Played(ms, init).mem) && Shows(ms, init, true, Played(ms, init).file)
    decreases |ms|
  {
    if ms == [] {
      assert forall i, file :: !Holds(ms, i, file);
    } else {
      PlayedIsHistory(ms[..|ms| - 1], init);
      ShowsNext(ms, init, false, Played(ms, init).mem);
      ShowsNext(ms, init, true, Played(ms, init).file);
      hide Shows;
    }
  }

  /** History shows one value only. */
  lemma ShowsOne<V>(ms: seq<Mark<V>>, init: V, file: bool, v: V, v': V)
    requires Shows(ms, init, file, v) && Shows(ms, init, file, v')
    ensures v == v'
  {
    if i :| IsLatest(ms, i, file) && ms[i].value == v {
      assert Holds(ms, i, file);
      var j :| IsLatest(ms, j, file) && ms[j].value == v';
      assert !(i < j) && !(j < i);
    }
  }
}
