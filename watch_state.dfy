/**
 * getWatchedElementNames of conditinal-fields.js: the scan that files
 * every dependent field under the controller named by the first of its
 * conditions.
 */
module WatchState {
  import opened Wrappers
  import opened FormModel

  /** Destructuring the first condition of an empty list raises a TypeError for that element. */
  datatype ScanError = EmptyConditionList(fieldName: string)

  /** The scan files dependent `d` under controller `c` for this watcher. */
  predicate Files(w: Watcher, c: string, d: string)
  {
    w.name == d && |w.conditions| > 0 && w.conditions[0].field == c
  }

  /** One iteration of the scan: `fields[field] = {...fields[field], [name]: conditions}`. */
  function AddWatcher(fields: Fields, w: Watcher): (r: Result<Fields, ScanError>)
    ensures r.Failure? <==> |w.conditions| == 0
    ensures r.Failure? ==> r.error == EmptyConditionList(w.name)
    ensures r.Success? ==>
      w.conditions[0].field in r.value && w.name in r.value[w.conditions[0].field]
      && r.value[w.conditions[0].field][w.name] == w.conditions
  {
    if |w.conditions| == 0 then Failure(EmptyConditionList(w.name))
    else
      var c := w.conditions[0].field;
      var inner := if c in fields then fields[c] else map[];
      Success(fields[c := inner[w.name := w.conditions]])
  }

  /**
   * The spread keeps what was filed before: the controller's other
   * dependents and every other controller's map are unchanged.
   */
  lemma AddWatcherKeepsOthers(fields: Fields, w: Watcher, c: string, d: string)
    requires AddWatcher(fields, w).Success?
    requires c in fields && d in fields[c] && !(c == w.conditions[0].field && d == w.name)
    ensures c in AddWatcher(fields, w).value && d in AddWatcher(fields, w).value[c]
    ensures AddWatcher(fields, w).value[c][d] == fields[c][d]
  {
  }

  /** The scan over the watchers in document order, stopping at the first that raises. */
  function Watched(ws: seq<Watcher>): (r: Result<Fields, ScanError>)
    ensures r.Success? ==> forall c :: c in r.value ==> |r.value[c]| > 0
    decreases |ws|
  {
    if |ws| == 0 then Success(map[])
    else match Watched(ws[..|ws| - 1])
      case Failure(e) => Failure(e)
      case Success(fields) => AddWatcher(fields, ws[|ws| - 1])
  }

  /** Every condition list in the state is non-empty and filed under the field of its first condition. */
  ghost predicate WellKeyed(fields: Fields)
  {
    forall c :: c in fields ==>
      |fields[c]| > 0 &&
      forall d :: d in fields[c] ==> |fields[c][d]| > 0 && fields[c][d][0].field == c
  }

  method GetWatchedElementNames(ws: seq<Watcher>) returns (r: Result<Fields, ScanError>)
    ensures r == Watched(ws)
  {
    var fields: Fields := map[];
    var i := 0;
    while i < |ws|
      invariant 0 <= i <= |ws|
      invariant Watched(ws[..i]) == Success(fields)
    {
      var w := ws[i];
      assert ws[..i + 1][..i] == ws[..i];
      assert Watched(ws[..i + 1]) == AddWatcher(fields, w);
      if |w.conditions| == 0 {
        FailureIsFinal(ws, i + 1);
        return Failure(EmptyConditionList(w.name));
      }
      var field := w.conditions[0].field;
      var inner := if field in fields then fields[field] else map[];
      fields := fields[field := inner[w.name := w.conditions]];
      i := i + 1;
    }
    assert ws[..i] == ws;
    r := Success(fields);
  }

  /** Once a prefix of the scan raises, the whole scan raises the same error. */
  lemma {:induction false} FailureIsFinal(ws: seq<Watcher>, k: nat)
    requires k <= |ws| && Watched(ws[..k]).Failure?
    ensures Watched(ws) == Watched(ws[..k])
    decreases |ws| - k
  {
    if k < |ws| {
      assert ws[..k + 1][..k] == ws[..k];
      FailureIsFinal(ws, k + 1);
    } else {
      assert ws[..k] == ws;
    }
  }

  /** The scan raises exactly when some watcher has an empty condition list, and names the first one. */
  lemma {:induction false} WatchedFailsOnEmptyList(ws: seq<Watcher>)
    ensures Watched(ws).Failure? <==> exists i :: 0 <= i < |ws| && |ws[i].conditions| == 0
    ensures Watched(ws).Failure? ==>
      exists i :: 0 <= i < |ws| && |ws[i].conditions| == 0
        && (forall j :: 0 <= j < i ==> |ws[j].conditions| > 0)
        && Watched(ws).error == EmptyConditionList(ws[i].name)
    decreases |ws|
  {
    if |ws| > 0 {
      var init := ws[..|ws| - 1];
      WatchedFailsOnEmptyList(init);
      assert forall i :: 0 <= i < |init| ==> init[i] == ws[i];
      if Watched(init).Failure? {
        var i :| 0 <= i < |init| && |init[i].conditions| == 0
          && (forall j :: 0 <= j < i ==> |init[j].conditions| > 0)
          && Watched(init).error == EmptyConditionList(init[i].name);
        assert |ws[i].conditions| == 0;
      } else if |ws[|ws| - 1].conditions| == 0 {
        assert forall j :: 0 <= j < |ws| - 1 ==> |ws[j].conditions| > 0;
      }
    }
  }

  /** A successful scan files d under c exactly when some watcher named d has c as its first condition's field. */
  lemma {:induction false} WatchedMembership(ws: seq<Watcher>, c: string, d: string)
    requires Watched(ws).Success?
    ensures (c in Watched(ws).value && d in Watched(ws).value[c])
        <==> exists i :: 0 <= i < |ws| && Files(ws[i], c, d)
    decreases |ws|
  {
    if |ws| > 0 {
      var init := ws[..|ws| - 1];
      WatchedMembership(init, c, d);
      assert forall i :: 0 <= i < |init| ==> init[i] == ws[i];
      if exists i :: 0 <= i < |ws| && Files(ws[i], c, d) {
        var i :| 0 <= i < |ws| && Files(ws[i], c, d);
        if i < |init| { assert Files(init[i], c, d); }
      }
    }
  }

  /** The condition list filed for d under c is that of the last watcher named d filed under c: later ones overwrite. */
  lemma {:induction false} WatchedValueIsLast(ws: seq<Watcher>, c: string, d: string, i: nat)
    requires Watched(ws).Success?
    requires i < |ws| && Files(ws[i], c, d)
    requires forall j :: i < j < |ws| ==> !Files(ws[j], c, d)
    ensures c in Watched(ws).value && d in Watched(ws).value[c]
    ensures Watched(ws).value[c][d] == ws[i].conditions
    decreases |ws|
  {
    var init := ws[..|ws| - 1];
    assert forall k :: 0 <= k < |init| ==> init[k] == ws[k];
    if i < |ws| - 1 {
      WatchedValueIsLast(init, c, d, i);
    }
  }

  /** Every successful scan yields a well-keyed state. */
  lemma {:induction false} WatchedIsWellKeyed(ws: seq<Watcher>)
    requires Watched(ws).Success?
    ensures WellKeyed(Watched(ws).value)
    decreases |ws|
  {
    if |ws| > 0 {
      WatchedIsWellKeyed(ws[..|ws| - 1]);
    }
  }

  /** The scan finds watched fields exactly when there is at least one watcher. */
  lemma {:induction false} WatchedEmptyIffNoWatchers(ws: seq<Watcher>)
    requires Watched(ws).Success?
    ensures |Watched(ws).value| == 0 <==> |ws| == 0
  {
    if |ws| > 0 {
      var w := ws[|ws| - 1];
      WatchedFailsOnEmptyList(ws);
      assert |w.conditions| > 0;
      WatchedMembership(ws, w.conditions[0].field, w.name);
      assert Files(ws[|ws| - 1], w.conditions[0].field, w.name);
    }
  }
}
