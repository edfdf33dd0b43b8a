/**
 * The medication list page (medications.php) receives one row per
 * (medication, schedule slot) pair from a LEFT JOIN and folds them into one
 * entry per medication, in first-seen order, each with the list of its
 * schedule times.
 */
module Grouping {
  import opened Wrappers
  import opened Text
  import opened PhpArrays

  /**
   * One row of `getUserMedications`. The slot columns are NULL for a
   * medication without slots; `pacienteNombre` is only selected in the
   * caregiver query.
   */
  datatype MedRow = MedRow(medId: int, nombre: string, dosis: string, instrucciones: Option<string>,
                           agregadoPorNombre: Option<string>, pacienteNombre: Option<string>,
                           hora: Option<string>, slotId: Option<int>, frecuencia: Option<string>, activo: Option<bool>)

  /** An entry of a group's `horarios` list. */
  datatype Horario = Horario(slotId: Option<int>, hora: string, frecuencia: Option<string>, activo: Option<bool>)

  /** One value of `$meds_grouped`. */
  datatype Group = Group(medId: int, nombre: string, dosis: string, instrucciones: Option<string>,
                         agregadoPorNombre: Option<string>, pacienteNombre: Option<string>, horarios: seq<Horario>)

  /** `if ($med['hora'])`: NULL, "" and "0" are false. */
  predicate Truthy(hora: Option<string>)
  {
    hora.Some? && !PhpEmpty(hora.value)
  }

  function HorarioOf(r: MedRow): Horario
    requires r.hora.Some?
  {
    Horario(r.slotId, r.hora.value, r.frecuencia, r.activo)
  }

  /** The group header a row creates, with an empty schedule list. */
  function HeaderOf(r: MedRow): Group
  {
    Group(r.medId, r.nombre, r.dosis, r.instrucciones, r.agregadoPorNombre, r.pacienteNombre, [])
  }

  // ---------------------------------------------------------------------------
  // What the fold computes, row by row
  // ---------------------------------------------------------------------------

  /** The medication ids in order of first occurrence. */
  function FirstIds(rows: seq<MedRow>): seq<int>
  {
    if rows == [] then []
    else
      var ids := FirstIds(rows[..|rows| - 1]);
      var id := rows[|rows| - 1].medId;
      if id in ids then ids else ids + [id]
  }

  /** The first row carrying `id`, if any. */
  function HeaderRow(rows: seq<MedRow>, id: int): Option<MedRow>
  {
    if rows == [] then None
    else
      var h := HeaderRow(rows[..|rows| - 1], id);
      if h.Some? then h else if rows[|rows| - 1].medId == id then Some(rows[|rows| - 1]) else None
  }

  /** The schedule entries of `id`, one per row with a truthy time, in row order. */
  function SlotsOf(rows: seq<MedRow>, id: int): seq<Horario>
  {
    if rows == [] then []
    else
      var r := rows[|rows| - 1];
      SlotsOf(rows[..|rows| - 1], id) + (if r.medId == id && Truthy(r.hora) then [HorarioOf(r)] else [])
  }

  /** The finished group of `id`: header from its first row, schedule from all its rows. */
  function GroupOf(rows: seq<MedRow>, id: int): Group
    requires HeaderRow(rows, id).Some?
  {
    HeaderOf(HeaderRow(rows, id).value).(horarios := SlotsOf(rows, id))
  }

  // ---------------------------------------------------------------------------
  // The fold itself
  // ---------------------------------------------------------------------------

  /**
   * The `foreach` over the rows. A PHP array keeps insertion order, so the
   * result is the key order `order` together with the `groups` map.
   */
  method GroupRows(rows: seq<MedRow>) returns (order: seq<int>, groups: map<int, Group>)
    ensures order == FirstIds(rows)
    ensures forall id :: id in groups <==> id in order
    ensures forall id | id in groups :: HeaderRow(rows, id).Some? && groups[id] == GroupOf(rows, id)
  {
    order, groups := [], map[];
    var i := 0;
    while i < |rows|
      invariant 0 <= i <= |rows|
      invariant Folded(rows[..i], order, groups)
    {
      ghost var order0, groups0 := order, groups;
      order, groups := AddRow(order, groups, rows[i]);
      FoldedStep(rows, i, order0, groups0, order, groups);
      i := i + 1;
    }
    assert rows[..i] == rows;
  }

  /** The body of the `foreach` for one row: open the row's group if it is new, then append its time if truthy. */
  method AddRow(order: seq<int>, groups: map<int, Group>, r: MedRow) returns (order': seq<int>, groups': map<int, Group>)
    ensures order' == if r.medId in groups then order else order + [r.medId]
    ensures r.medId in groups'
    ensures groups'[r.medId] == Extended(if r.medId in groups then groups[r.medId] else HeaderOf(r), r)
    ensures forall id | id != r.medId :: (id in groups' <==> id in groups) && (id in groups ==> groups'[id] == groups[id])
  {
    order', groups' := order, groups;
    if r.medId !in groups' {
      groups' := groups'[r.medId := HeaderOf(r)];
      order' := order' + [r.medId];
    }
    if Truthy(r.hora) {
      var g := groups'[r.medId];
      groups' := groups'[r.medId := g.(horarios := g.horarios + [HorarioOf(r)])];
    }
  }

  /** The loop invariant: `order` and `groups` are what the fold specifies for the rows seen so far. */
  ghost predicate Folded(seen: seq<MedRow>, order: seq<int>, groups: map<int, Group>)
  {
    && order == FirstIds(seen)
    && (forall id :: id in groups <==> id in order)
    && GroupedSoFar(seen, groups)
  }

  /** One pass of the loop body keeps the invariant. */
  lemma FoldedStep(rows: seq<MedRow>, i: nat, order: seq<int>, groups: map<int, Group>,
                   order': seq<int>, groups': map<int, Group>)
    requires i < |rows| && Folded(rows[..i], order, groups)
    requires order' == if rows[i].medId in groups then order else order + [rows[i].medId]
    requires rows[i].medId in groups'
    requires groups'[rows[i].medId] ==
             Extended(if rows[i].medId in groups then groups[rows[i].medId] else HeaderOf(rows[i]), rows[i])
    requires forall id | id != rows[i].medId :: (id in groups' <==> id in groups) && (id in groups ==> groups'[id] == groups[id])
    ensures Folded(rows[..i + 1], order', groups')
  {
    var seen, r := rows[..i], rows[i];
    assert rows[..i + 1] == seen + [r];
    GroupedStep(seen, r, groups, groups');
    FoldStep(seen, r, r.medId);
  }

  /** The loop invariant: every group seen so far is complete for the rows seen so far, and no other id occurred. */
  ghost predicate GroupedSoFar(seen: seq<MedRow>, groups: map<int, Group>)
  {
    && (forall id | id in groups :: HeaderRow(seen, id).Some? && groups[id] == GroupOf(seen, id))
    && (forall id | id !in groups :: HeaderRow(seen, id).None? && SlotsOf(seen, id) == [])
  }

  /** A group after one more row: created from the row's header if new, and given the row's time if truthy. */
  function Extended(g: Group, r: MedRow): Group
  {
    if Truthy(r.hora) then g.(horarios := g.horarios + [HorarioOf(r)]) else g
  }

  /** One pass of the loop body keeps the invariant: only the row's own group changes, and it changes as the fold says. */
  lemma GroupedStep(seen: seq<MedRow>, r: MedRow, before: map<int, Group>, after: map<int, Group>)
    requires GroupedSoFar(seen, before)
    requires r.medId in after
    requires after[r.medId] == Extended(if r.medId in before then before[r.medId] else HeaderOf(r), r)
    requires forall id | id != r.medId :: (id in after <==> id in before) && (id in before ==> after[id] == before[id])
    ensures GroupedSoFar(seen + [r], after)
  {
    forall id | id in after
      ensures HeaderRow(seen + [r], id).Some? && after[id] == GroupOf(seen + [r], id)
    {
      FoldStep(seen, r, id);
    }
    forall id | id !in after
      ensures HeaderRow(seen + [r], id).None? && SlotsOf(seen + [r], id) == []
    {
      FoldStep(seen, r, id);
    }
  }

  /** How each of the three specifications grows by one row. */
  lemma FoldStep(seen: seq<MedRow>, r: MedRow, id: int)
    ensures FirstIds(seen + [r]) == if r.medId in FirstIds(seen) then FirstIds(seen) else FirstIds(seen) + [r.medId]
    ensures HeaderRow(seen + [r], id) ==
              if HeaderRow(seen, id).Some? then HeaderRow(seen, id) else if r.medId == id then Some(r) else None
    ensures SlotsOf(seen + [r], id) == SlotsOf(seen, id) + (if r.medId == id && Truthy(r.hora) then [HorarioOf(r)] else [])
  {
    assert (seen + [r])[..|seen|] == seen;
  }

  // ---------------------------------------------------------------------------
  // Properties
  // ---------------------------------------------------------------------------

  /** There is one group per distinct medication id: no id twice, and every id of a row present. */
  lemma {:induction false} FirstIdsExactly(rows: seq<MedRow>)
    ensures Distinct(FirstIds(rows))
    ensures forall id :: id in FirstIds(rows) <==> exists k :: 0 <= k < |rows| && rows[k].medId == id
  {
    if rows != [] {
      var n := |rows| - 1;
      FirstIdsExactly(rows[..n]);
      forall id
        ensures id in FirstIds(rows) <==> exists k :: 0 <= k < |rows| && rows[k].medId == id
      {
        if exists k :: 0 <= k < n && rows[..n][k].medId == id {
          var k :| 0 <= k < n && rows[..n][k].medId == id;
          assert rows[k].medId == id;
        }
        if exists k :: 0 <= k < |rows| && rows[k].medId == id {
          var k :| 0 <= k < |rows| && rows[k].medId == id;
          if k < n {
            assert rows[..n][k].medId == id;
          }
        }
      }
    }
  }

  /** A group's fields come from the first row with its id. */
  lemma {:induction false} HeaderRowIsFirst(rows: seq<MedRow>, id: int)
    requires HeaderRow(rows, id).Some?
    ensures exists k :: 0 <= k < |rows| && HeaderRow(rows, id) == Some(rows[k]) && rows[k].medId == id &&
                        forall j :: 0 <= j < k ==> rows[j].medId != id
  {
    var n := |rows| - 1;
    if HeaderRow(rows[..n], id).Some? {
      HeaderRowIsFirst(rows[..n], id);
      var k :| 0 <= k < n && HeaderRow(rows[..n], id) == Some(rows[..n][k]) && rows[..n][k].medId == id &&
               forall j :: 0 <= j < k ==> rows[..n][j].medId != id;
      assert forall j :: 0 <= j < k ==> rows[j] == rows[..n][j];
      assert HeaderRow(rows, id) == Some(rows[k]);
    } else {
      HeaderRowNone(rows[..n], id);
      assert forall j :: 0 <= j < n ==> rows[j] == rows[..n][j];
      assert HeaderRow(rows, id) == Some(rows[n]);
    }
  }

  /** No header row means no row carries the id at all. */
  lemma {:induction false} HeaderRowNone(rows: seq<MedRow>, id: int)
    requires HeaderRow(rows, id).None?
    ensures forall j :: 0 <= j < |rows| ==> rows[j].medId != id
  {
    if rows != [] {
      var n := |rows| - 1;
      HeaderRowNone(rows[..n], id);
      assert forall j :: 0 <= j < n ==> rows[j] == rows[..n][j];
    }
  }

  /** Schedule lists keep row order: the rows of a longer result extend those of a shorter one. */
  lemma {:induction false} SlotsOfAppend(a: seq<MedRow>, b: seq<MedRow>, id: int)
    ensures SlotsOf(a + b, id) == SlotsOf(a, id) + SlotsOf(b, id)
  {
    if b == [] {
      assert a + b == a;
    } else {
      var n := |b| - 1;
      assert (a + b)[..|a + b| - 1] == a + b[..n];
      SlotsOfAppend(a, b[..n], id);
    }
  }

  /** A schedule entry is listed exactly for the rows of that medication with a truthy time. */
  lemma {:induction false} SlotsOfExactly(rows: seq<MedRow>, id: int, h: Horario)
    ensures h in SlotsOf(rows, id) <==>
            exists k :: 0 <= k < |rows| && rows[k].medId == id && Truthy(rows[k].hora) && HorarioOf(rows[k]) == h
  {
    if rows != [] {
      var n := |rows| - 1;
      SlotsOfExactly(rows[..n], id, h);
      if exists k :: 0 <= k < n && rows[..n][k].medId == id && Truthy(rows[..n][k].hora) && HorarioOf(rows[..n][k]) == h {
        var k :| 0 <= k < n && rows[..n][k].medId == id && Truthy(rows[..n][k].hora) && HorarioOf(rows[..n][k]) == h;
        assert rows[k] == rows[..n][k];
      }
      if exists k :: 0 <= k < |rows| && rows[k].medId == id && Truthy(rows[k].hora) && HorarioOf(rows[k]) == h {
        var k :| 0 <= k < |rows| && rows[k].medId == id && Truthy(rows[k].hora) && HorarioOf(rows[k]) == h;
        if k < n {
          assert rows[..n][k] == rows[k];
        }
      }
    }
  }

  /** The number of rows of `id` that carry a truthy time. */
  function CountTimed(rows: seq<MedRow>, id: int): nat
  {
    if rows == [] then 0
    else CountTimed(rows[1..], id) + (if rows[0].medId == id && Truthy(rows[0].hora) then 1 else 0)
  }

  /** A group has exactly as many schedule entries as its rows with a truthy time. */
  lemma {:induction false} SlotsOfCount(rows: seq<MedRow>, id: int)
    ensures |SlotsOf(rows, id)| == CountTimed(rows, id)
  {
    if rows != [] {
      SlotsOfAppend([rows[0]], rows[1..], id);
      assert [rows[0]] + rows[1..] == rows;
      SlotsOfCount(rows[1..], id);
      assert [rows[0]][..0] == [];
    }
  }

  /**
   * A medication without slots comes back from the LEFT JOIN as one row
   * with a NULL time: it still gets its group, with no schedule entries.
   */
  lemma MedicationWithoutSlots(r: MedRow)
    requires r.hora.None?
    ensures FirstIds([r]) == [r.medId]
    ensures GroupOf([r], r.medId) == HeaderOf(r)
  {
    assert [r][..0] == [];
    assert HeaderRow([r], r.medId) == Some(r);
    assert SlotsOf([r], r.medId) == [];
  }

  /** In the patient view the rows carry no patient name, and neither do the groups. */
  lemma PatientViewHasNoPatientName(rows: seq<MedRow>, id: int)
    requires forall k :: 0 <= k < |rows| ==> rows[k].pacienteNombre.None?
    requires HeaderRow(rows, id).Some?
    ensures GroupOf(rows, id).pacienteNombre.None?
  {
    HeaderRowIsFirst(rows, id);
  }
}
