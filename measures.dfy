/**
 * The measurements a page reads from its form: square metres, running
 * metres, cubic metres, the manual piece counts of the drywall page and the
 * days booked per worker (`state.workerDays`, keyed by the worker's catalog key).
 */
module Measures {

  /** `state.workerDays`: a JavaScript object, i.e. days per key in insertion order. */
  type WorkerDays = seq<(string, real)>

  predicate DistinctKeys(wd: WorkerDays) {
    forall i, j :: 0 <= i < j < |wd| ==> wd[i].0 != wd[j].0
  }

  predicate HasKey(wd: WorkerDays, key: string) {
    exists i :: 0 <= i < |wd| && wd[i].0 == key
  }

  /** `state.workerDays[key] ?? 0`: the days of the key's entry, 0 when it has none. */
  function Days(wd: WorkerDays, key: string): (d: real)
    ensures !HasKey(wd, key) ==> d == 0.0
  {
    if wd == [] then 0.0
    else if wd[0].0 == key then wd[0].1
    else
      assert HasKey(wd[1..], key) ==> HasKey(wd, key) by {
        if HasKey(wd[1..], key) {
          var i :| 0 <= i < |wd| - 1 && wd[1..][i].0 == key;
          assert wd[i + 1].0 == key;
        }
      }
      Days(wd[1..], key)
  }

  /** With distinct keys, every entry is what its key reads. */
  lemma {:induction false} DaysAt(wd: WorkerDays, i: nat)
    requires DistinctKeys(wd) && i < |wd|
    ensures Days(wd, wd[i].0) == wd[i].1
  {
    if i > 0 {
      assert wd[1..][i - 1] == wd[i];
      DaysAt(wd[1..], i - 1);
    }
  }

  /** `state.workerDays[key] = d`: overwrites the entry of `key`, or adds one at the end. */
  function SetDays(wd: WorkerDays, key: string, d: real): (r: WorkerDays)
    ensures |r| == if HasKey(wd, key) then |wd| else |wd| + 1
    ensures forall i :: 0 <= i < |wd| ==> r[i].0 == wd[i].0
    ensures forall i :: 0 <= i < |wd| && wd[i].0 != key ==> r[i] == wd[i]
    ensures !HasKey(wd, key) ==> r[|wd|] == (key, d)
  {
    if wd == [] then [(key, d)]
    else if wd[0].0 == key then [(key, d)] + wd[1..]
    else
      assert HasKey(wd, key) <==> HasKey(wd[1..], key) by {
        if HasKey(wd, key) {
          var i :| 0 <= i < |wd| && wd[i].0 == key;
          assert wd[1..][i - 1].0 == key;
        }
        if HasKey(wd[1..], key) {
          var i :| 0 <= i < |wd| - 1 && wd[1..][i].0 == key;
          assert wd[i + 1].0 == key;
        }
      }
      [wd[0]] + SetDays(wd[1..], key, d)
  }

  /** The sum of all booked days: the `for (const k in state.workerDays)` total. */
  function TotalDays(wd: WorkerDays): real {
    if wd == [] then 0.0 else TotalDays(wd[..|wd| - 1]) + wd[|wd| - 1].1
  }

  lemma {:induction false} TotalDaysCons(x: (string, real), wd: WorkerDays)
    ensures TotalDays([x] + wd) == x.1 + TotalDays(wd)
    decreases |wd|
  {
    if wd != [] {
      assert ([x] + wd)[..|[x] + wd| - 1] == [x] + wd[..|wd| - 1];
      TotalDaysCons(x, wd[..|wd| - 1]);
    }
  }

  /** Setting one worker's days changes what that key reads and nothing else. */
  lemma {:induction false} SetDaysReads(wd: WorkerDays, key: string, d: real, k: string)
    ensures Days(SetDays(wd, key, d), k) == if k == key then d else Days(wd, k)
    decreases |wd|
  {
    if wd != [] && wd[0].0 != key {
      SetDaysReads(wd[1..], key, d, k);
      assert SetDays(wd, key, d)[1..] == SetDays(wd[1..], key, d);
    } else if wd != [] {
      assert SetDays(wd, key, d)[1..] == wd[1..];
    }
  }

  lemma {:induction false} SetDaysDistinct(wd: WorkerDays, key: string, d: real)
    requires DistinctKeys(wd)
    ensures DistinctKeys(SetDays(wd, key, d))
  {
    var r := SetDays(wd, key, d);
    forall i, j | 0 <= i < j < |r| ensures r[i].0 != r[j].0 {
      if j == |wd| {
        assert !HasKey(wd, key) && r[j].0 == key;
        assert r[i].0 == wd[i].0;
      } else {
        assert r[i].0 == wd[i].0 && r[j].0 == wd[j].0;
      }
    }
  }

  /** Setting one worker's days changes the total by exactly the difference. */
  lemma {:induction false} SetDaysTotal(wd: WorkerDays, key: string, d: real)
    requires DistinctKeys(wd)
    ensures TotalDays(SetDays(wd, key, d)) == TotalDays(wd) - Days(wd, key) + d
    decreases |wd|
  {
    if wd == [] {
      TotalDaysCons((key, d), []);
    } else if wd[0].0 == key {
      TotalDaysCons((key, d), wd[1..]);
      TotalDaysCons(wd[0], wd[1..]);
      assert [wd[0]] + wd[1..] == wd;
    } else {
      var tail := wd[1..];
      assert DistinctKeys(tail) by {
        forall i, j | 0 <= i < j < |tail| ensures tail[i].0 != tail[j].0 {
          assert tail[i] == wd[i + 1] && tail[j] == wd[j + 1];
        }
      }
      SetDaysTotal(tail, key, d);
      TotalDaysCons(wd[0], SetDays(tail, key, d));
      TotalDaysCons(wd[0], tail);
      assert [wd[0]] + tail == wd;
    }
  }

  /** The two day fields of the form, entered in the order every page's `attachInputs` sets them. */
  function FormDays(technitis: real, voithos: real): WorkerDays {
    [("technitis", technitis), ("voithos", voithos)]
  }

  /** Days booked only through the two form fields. */
  predicate OnlyFormKeys(wd: WorkerDays) {
    |wd| == 2 && wd[0].0 == "technitis" && wd[1].0 == "voithos"
  }

  /**
   * When only the two form fields book days, summing every key (drywall,
   * tiling, thermal facade) and adding `technitis + voithos` (painting) agree.
   */
  lemma {:induction false} FormDaysTotal(wd: WorkerDays)
    requires OnlyFormKeys(wd)
    ensures TotalDays(wd) == Days(wd, "technitis") + Days(wd, "voithos")
  {
    assert "technitis" != "voithos";
    DaysAt(wd, 0);
    DaysAt(wd, 1);
    var w0 := wd[..1];
    assert w0[..0] == [];
    assert TotalDays(w0) == wd[0].1 by {
      assert TotalDays(w0) == TotalDays(w0[..0]) + w0[0].1;
    }
    assert wd[..|wd| - 1] == w0;
    assert TotalDays(wd) == TotalDays(w0) + wd[1].1;
  }

  /** Editing a day field keeps the keys to the two form fields. */
  lemma SetFormDays(wd: WorkerDays, key: string, d: real)
    requires OnlyFormKeys(wd) && (key == "technitis" || key == "voithos")
    ensures OnlyFormKeys(SetDays(wd, key, d))
  {
    assert HasKey(wd, key) by {
      if key == "technitis" { assert wd[0].0 == key; } else { assert wd[1].0 == key; }
    }
  }

  datatype Measurements = Measurements(m2: real, lm: real, m3: real, days: WorkerDays)

  /** The manual counts of the drywall page: three sheet kinds, studs and uprights. */
  datatype PieceCounts = PieceCounts(sheetsGyps: real, sheetsIno: real, sheetsAnth: real,
                                     strotiras: real, orthostatis: real)
}
