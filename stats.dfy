/** `GET /api/statistiques/utilisation-par-jour`: approved requests counted
    per weekday. The SQL groups by `DAYNAME(date)`; the handler then merges
    those rows into seven fixed French day labels that start at zero. The SQL
    itself is not modelled: its rows are the input. */
module Stats {
  import opened Base

  /** One entry of the answer, `{ jour, reservations }`. */
  datatype DayCount = DayCount(jour: string, reservations: int)

  /** One row of the grouped query: a `DAYNAME` and its count. */
  datatype Row = Row(jour: string, reservations: int)

  /** The labels of the answer, Monday first. */
  const FrenchDays: seq<string> := ["Lundi", "Mardi", "Mercredi", "Jeudi", "Vendredi", "Samedi", "Dimanche"]

  /** What `DAYNAME` returns under MySQL's default `lc_time_names` (`en_US`),
      in the order of the query's own `ORDER BY FIELD(...)`. */
  const DaynameDays: seq<string> := ["Monday", "Tuesday", "Wednesday", "Thursday", "Friday", "Saturday", "Sunday"]

  predicate Distinct(keys: seq<string>) {
    forall a, b :: 0 <= a < b < |keys| ==> keys[a] != keys[b]
  }

  /** The answer before any row is merged: every label at zero. */
  function Initial(): (js: seq<DayCount>)
    ensures |js| == 7
    ensures forall q :: 0 <= q < 7 ==> js[q] == DayCount(FrenchDays[q], 0)
  {
    seq(7, q requires 0 <= q < 7 => DayCount(FrenchDays[q], 0))
  }

  /** The first position of `jour` among `keys` (`findIndex`), if any. */
  function IndexOf(keys: seq<string>, jour: string): (r: Option<nat>)
    ensures r.None? <==> jour !in keys
    ensures r.Some? ==> r.value < |keys| && keys[r.value] == jour
    ensures r.Some? ==> forall m :: 0 <= m < r.value ==> keys[m] != jour
  {
    if keys == [] then None
    else if keys[0] == jour then Some(0)
    else
      match IndexOf(keys[1..], jour)
      case None => None
      case Some(k) => Some(k + 1)
  }

  /** One row merged: when its `jour` is the `k`-th key, slot `k` takes its
      count; any other row changes nothing. */
  function Step(keys: seq<string>, js: seq<DayCount>, row: Row): seq<DayCount>
    requires |keys| == |js|
  {
    match IndexOf(keys, row.jour)
    case None => js
    case Some(k) => js[k := js[k].(reservations := row.reservations)]
  }

  /** The answer after merging `rows` in order, matching each row's `jour`
      against `keys`; the labels themselves never change. */
  function MergedBy(keys: seq<string>, rows: seq<Row>): (js: seq<DayCount>)
    requires |keys| == 7
    ensures |js| == 7
    ensures forall q :: 0 <= q < 7 ==> js[q].jour == FrenchDays[q]
  {
    if rows == [] then Initial()
    else Step(keys, MergedBy(keys, rows[..|rows| - 1]), rows[|rows| - 1])
  }

  /** Row `i` is the last row whose `jour` is `jour`. */
  predicate LastNaming(rows: seq<Row>, i: int, jour: string) {
    0 <= i < |rows| && rows[i].jour == jour && forall j :: i < j < |rows| ==> rows[j].jour != jour
  }

  /** Merging one row touches slot `k` exactly when the row names the `k`-th key. */
  lemma StepAt(keys: seq<string>, js: seq<DayCount>, row: Row, k: nat)
    requires |keys| == |js| == 7 && Distinct(keys) && k < 7
    ensures row.jour == keys[k] ==> Step(keys, js, row)[k].reservations == row.reservations
    ensures row.jour != keys[k] ==> Step(keys, js, row)[k] == js[k]
  {
    if row.jour == keys[k] {
      assert IndexOf(keys, row.jour) == Some(k);
    }
  }

  /** With distinct keys, slot `k` holds zero when no row names the `k`-th key. */
  lemma {:induction false} MergedByUnnamed(keys: seq<string>, rows: seq<Row>, k: nat)
    requires |keys| == 7 && Distinct(keys) && k < 7
    requires forall i :: 0 <= i < |rows| ==> rows[i].jour != keys[k]
    ensures MergedBy(keys, rows)[k].reservations == 0
  {
    if rows != [] {
      var pre := rows[..|rows| - 1];
      assert forall i :: 0 <= i < |pre| ==> pre[i] == rows[i];
      MergedByUnnamed(keys, pre, k);
      StepAt(keys, MergedBy(keys, pre), rows[|rows| - 1], k);
    }
  }

  /** With distinct keys, slot `k` holds the count of the last row naming the `k`-th key. */
  lemma {:induction false} MergedByNamed(keys: seq<string>, rows: seq<Row>, k: nat, i: int)
    requires |keys| == 7 && Distinct(keys) && k < 7
    requires LastNaming(rows, i, keys[k])
    ensures MergedBy(keys, rows)[k].reservations == rows[i].reservations
  {
    var pre, last := rows[..|rows| - 1], rows[|rows| - 1];
    StepAt(keys, MergedBy(keys, pre), last, k);
    if i < |rows| - 1 {
      assert LastNaming(pre, i, keys[k]);
      MergedByNamed(keys, pre, k, i);
    }
  }

  /** Rows whose `jour` is none of the keys leave every slot at zero. */
  lemma {:induction false} UnmatchedRowsIgnored(keys: seq<string>, rows: seq<Row>)
    requires |keys| == 7
    requires forall i :: 0 <= i < |rows| ==> rows[i].jour !in keys
    ensures MergedBy(keys, rows) == Initial()
  {
    if rows != [] {
      UnmatchedRowsIgnored(keys, rows[..|rows| - 1]);
    }
  }

  /** As written: slot `k` holds the last count of a row whose `jour` is the
      `k`-th French label, and zero when no row is so named. */
  lemma LabelRowsCounted(rows: seq<Row>, k: nat)
    requires k < 7
    ensures MergedBy(FrenchDays, rows)[k].jour == FrenchDays[k]
    ensures (forall i :: 0 <= i < |rows| ==> rows[i].jour != FrenchDays[k]) ==>
              MergedBy(FrenchDays, rows)[k].reservations == 0
    ensures forall i :: LastNaming(rows, i, FrenchDays[k]) ==>
              MergedBy(FrenchDays, rows)[k].reservations == rows[i].reservations
  {
    FrenchDaysDistinct();
    if forall i :: 0 <= i < |rows| ==> rows[i].jour != FrenchDays[k] {
      MergedByUnnamed(FrenchDays, rows, k);
    }
    forall i | LastNaming(rows, i, FrenchDays[k])
      ensures MergedBy(FrenchDays, rows)[k].reservations == rows[i].reservations
    {
      MergedByNamed(FrenchDays, rows, k, i);
    }
  }

  lemma FrenchDaysDistinct()
    ensures Distinct(FrenchDays)
  {
  }

  /** The merge as the handler writes it: each row is looked up among the
      French labels of `jours` and, when found, overwrites that count. */
  method MergeWeekdays(rows: seq<Row>) returns (jours: array<DayCount>)
    ensures fresh(jours)
    ensures jours[..] == MergedBy(FrenchDays, rows)
  {
    jours := new DayCount[7][DayCount("Lundi", 0), DayCount("Mardi", 0), DayCount("Mercredi", 0),
                             DayCount("Jeudi", 0), DayCount("Vendredi", 0), DayCount("Samedi", 0),
                             DayCount("Dimanche", 0)];
    assert jours[..] == Initial();
    var i := 0;
    while i < |rows|
      invariant 0 <= i <= |rows|
      invariant jours[..] == MergedBy(FrenchDays, rows[..i])
    {
      var row := rows[i];
      // the handler's findIndex: the first slot whose label equals the row's day name
      var index := -1;
      var m := 0;
      while m < jours.Length
        invariant 0 <= m <= jours.Length
        invariant forall q :: 0 <= q < m ==> jours[q].jour != row.jour
      {
        if jours[m].jour == row.jour {
          index := m;
          break;
        }
        m := m + 1;
      }
      assert rows[..i + 1][..i] == rows[..i];
      assert index == -1 ==> IndexOf(FrenchDays, row.jour).None?;
      assert index != -1 ==> IndexOf(FrenchDays, row.jour) == Some(index);
      if index != -1 {
        jours[index] := jours[index].(reservations := row.reservations);
      }
      i := i + 1;
    }
    assert rows[..i] == rows;
  }

  /** The corrected merge: each row's `DAYNAME` is looked up among the English
      names and its count lands on the French label of the same weekday. */
  method MergeDaynames(rows: seq<Row>) returns (jours: array<DayCount>)
    ensures fresh(jours)
    ensures jours[..] == MergedBy(DaynameDays, rows)
  {
    jours := new DayCount[7][DayCount("Lundi", 0), DayCount("Mardi", 0), DayCount("Mercredi", 0),
                             DayCount("Jeudi", 0), DayCount("Vendredi", 0), DayCount("Samedi", 0),
                             DayCount("Dimanche", 0)];
    assert jours[..] == Initial();
    var i := 0;
    while i < |rows|
      invariant 0 <= i <= |rows|
      invariant jours[..] == MergedBy(DaynameDays, rows[..i])
    {
      var row := rows[i];
      assert rows[..i + 1][..i] == rows[..i];
      var found := IndexOf(DaynameDays, row.jour);
      if found.Some? {
        jours[found.value] := jours[found.value].(reservations := row.reservations);
      }
      i := i + 1;
    }
    assert rows[..i] == rows;
  }

  /** As written, rows named the way `DAYNAME` names days never match a
      French label: the answer is all zeros whatever was approved. */
  lemma DaynameRowsLost(rows: seq<Row>)
    requires forall i :: 0 <= i < |rows| ==> rows[i].jour in DaynameDays
    ensures MergedBy(FrenchDays, rows) == Initial()
  {
    forall i | 0 <= i < |rows|
      ensures rows[i].jour !in FrenchDays
    {
      DaynameIsNotFrench(rows[i].jour);
    }
    UnmatchedRowsIgnored(FrenchDays, rows);
  }

  lemma DaynameIsNotFrench(d: string)
    requires d in DaynameDays
    ensures d !in FrenchDays
  {
    var k :| 0 <= k < 7 && DaynameDays[k] == d;
  }

  /** The corrected merge puts the last count for the `k`-th `DAYNAME` on
      the `k`-th French label, and zero on a day no row names. */
  lemma DaynameRowsCounted(rows: seq<Row>, k: nat)
    requires k < 7
    ensures MergedBy(DaynameDays, rows)[k].jour == FrenchDays[k]
    ensures (forall i :: 0 <= i < |rows| ==> rows[i].jour != DaynameDays[k]) ==>
              MergedBy(DaynameDays, rows)[k].reservations == 0
    ensures forall i :: LastNaming(rows, i, DaynameDays[k]) ==>
              MergedBy(DaynameDays, rows)[k].reservations == rows[i].reservations
  {
    DaynamesDistinct();
    if forall i :: 0 <= i < |rows| ==> rows[i].jour != DaynameDays[k] {
      MergedByUnnamed(DaynameDays, rows, k);
    }
    forall i | LastNaming(rows, i, DaynameDays[k])
      ensures MergedBy(DaynameDays, rows)[k].reservations == rows[i].reservations
    {
      MergedByNamed(DaynameDays, rows, k, i);
    }
  }

  lemma DaynamesDistinct()
    ensures Distinct(DaynameDays)
  {
  }

  /** Three approved requests on a Monday: the handler as written answers 0
      for Lundi, the corrected merge answers 3. */
  lemma MondayExample()
    ensures MergedBy(FrenchDays, [Row("Monday", 3)])[0] == DayCount("Lundi", 0)
    ensures MergedBy(DaynameDays, [Row("Monday", 3)])[0] == DayCount("Lundi", 3)
  {
    DaynameRowsLost([Row("Monday", 3)]);
    assert IndexOf(DaynameDays, "Monday") == Some(0);
  }
}
