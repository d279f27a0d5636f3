/** Walk-throughs of the lending lifecycle, each stated for every database
    that sets the scene: the bulk assignment that fails for want of one
    device and succeeds once a third one is added, the cancellation
    window, and the duplicate serial number. */
module Scenarios {
  import opened Base
  import opened Text
  import opened CoreModels
  import opened EquiposModels
  import opened GestionViews
  import opened CoreViews

  // ---------------------------------------------------------------
  // Bulk assignment: three devices requested, a rack with two
  // ---------------------------------------------------------------

  /** Nothing assigned yet to a reservation asking for `n` devices. */
  predicate Unassigned(db: Db, rid: ReservaId, n: int) {
    rid in db.reservas && db.reservas[rid].cantSolicitada == n && RowsOf(db.asignaciones, rid) == {}
  }

  /** Device j of the table has a status with this label. */
  predicate Labelled(db: Db, j: nat, name: string) {
    j < |db.equipos| && db.equipos[j].estado in db.estados && db.estados[db.equipos[j].estado] == name
  }

  /** A reservation that asks for three devices, and a rack with only two
      available ones: the bulk assignment is refused, naming both numbers,
      and nothing changes. */
  lemma TwoOfThreeRefused(db: Db, s: Session, rid: ReservaId, rk: RackId)
    requires IsAdmin(s) && Unassigned(db, rid, 3) && rk in db.racks && rk != 0
    requires |Disponibles(db.estados, db.equipos, rk)| == 2
    ensures AsignarRack(db, s, rid, Some(rk)) == Step(db, Err(NotEnoughAvailable(2, 3)))
  {
    assert Needed(db, rid) == 3;
    AsignarRackAllOrNothing(db, s, rid, rk);
  }

  /** A device created in rack `rk` with a status that reads 'Disponible'
      is one more available device of that rack, at the end of the table,
      and leaves the reservations and their rows alone. */
  lemma CreatedAvailable(db: Db, s: Session, rk: RackId, data: CoreViews.EquipoInput)
    requires EquiposModels.Valid(db) && rk != 0
    requires data.idRack == Some(rk) && data.idEstado.Some? && data.idEstado.value in db.estados
    requires IExact(db.estados[data.idEstado.value], Disponible)
    requires CrearEquipo(db, s, data).res.Ok?
    ensures var db2 := CrearEquipo(db, s, data).db;
      && |Disponibles(db2.estados, db2.equipos, rk)| == |Disponibles(db.estados, db.equipos, rk)| + 1
      && IdsIncreasing(db2.equipos)
      && db2.estados == db.estados && db2.reservas == db.reservas && db2.racks == db.racks
      && db2.asignaciones == db.asignaciones && db2.next.asig == db.next.asig
  {
    var db2 := CrearEquipo(db, s, data).db;
    var e := db2.equipos[|db.equipos|];
    assert db2.equipos == db.equipos + [e];
    assert e.rack == Some(rk) && EsDisponible(db2.estados, e);
    DisponiblesAppend(db.estados, db.equipos, [e], rk);
    assert [e][..0] == [];
    EquiposChangeIncreasing(db, e);
  }

  /** With three available devices in the rack, no row yet and at most one
      'En uso' label, the bulk assignment picks all three: three rows,
      and each available device of the rack now reads 'En uso'. */
  lemma ThreeAssigned(db: Db, s: Session, rid: ReservaId, rk: RackId)
    requires IsAdmin(s) && Unassigned(db, rid, 3) && rk in db.racks && rk != 0
    requires IdsIncreasing(db.equipos) && forall a | a in db.asignaciones :: a < db.next.asig
    requires |Disponibles(db.estados, db.equipos, rk)| == 3
    requires |LabelKeys(db.estados, EnUso)| <= 1
    ensures var out := AsignarRack(db, s, rid, Some(rk));
      && out.res == Ok(3)
      && |RowsOf(out.db.asignaciones, rid)| == 3
      && |out.db.equipos| == |db.equipos|
      && forall j | 0 <= j < |db.equipos| && db.equipos[j].rack == Some(rk) && EsDisponible(db.estados, db.equipos[j]) ::
           Labelled(out.db, j, EnUso)
  {
    var cands := Take(Disponibles(db.estados, db.equipos, rk), 3);
    RackReachesCommit(db, s, rid, rk);
    CommitOk(db, rid, cands);
    AsignarRackRows(db, s, rid, Some(rk));
    AsignarRackDevices(db, s, rid, rk);
    forall j | 0 <= j < |db.equipos| && db.equipos[j].rack == Some(rk) && EsDisponible(db.estados, db.equipos[j])
      ensures |Disponibles(db.estados, db.equipos[..j], rk)| < 3
    {
      DisponiblesAt(db.estados, db.equipos, rk, j);
    }
  }

  /** With three available devices and three missing, every check before
      the insert passes. */
  lemma RackReachesCommit(db: Db, s: Session, rid: ReservaId, rk: RackId)
    requires IsAdmin(s) && Unassigned(db, rid, 3) && rk in db.racks && rk != 0
    requires |Disponibles(db.estados, db.equipos, rk)| == 3
    ensures AsignarRack(db, s, rid, Some(rk)) == Commit(db, rid, Take(Disponibles(db.estados, db.equipos, rk), 3))
  {
    assert Needed(db, rid) == 3;
  }

  /** When the reservation has no row and the 'En uso' label is not
      duplicated, the insert succeeds: no pair can repeat. */
  lemma CommitOk(db: Db, rid: ReservaId, cands: seq<Equipo>)
    requires |LabelKeys(db.estados, EnUso)| <= 1 && RowsOf(db.asignaciones, rid) == {}
    ensures Commit(db, rid, cands).res == Ok(|cands|)
  {
    var g := GetOrCreateEstado(db, EnUso);
    assert g.Ok? && g.value.0.asignaciones == db.asignaciones;
    assert forall k | k in db.asignaciones :: db.asignaciones[k].reserva != rid by {
      assert forall k | k in db.asignaciones :: k !in RowsOf(db.asignaciones, rid);
    }
  }

  /** After a third device is created in that rack with a status that reads
      'Disponible', the same request succeeds: three rows for the
      reservation, and each of the rack's three available devices now has
      a status labelled 'En uso'. */
  lemma ThirdDeviceThenAssigned(db: Db, s: Session, rid: ReservaId, rk: RackId, data: CoreViews.EquipoInput, db2: Db)
    requires EquiposModels.Valid(db)
    requires IsAdmin(s) && Unassigned(db, rid, 3) && rk in db.racks && rk != 0
    requires |Disponibles(db.estados, db.equipos, rk)| == 2
    requires |LabelKeys(db.estados, EnUso)| <= 1
    requires data.idRack == Some(rk) && data.idEstado.Some? && data.idEstado.value in db.estados
    requires IExact(db.estados[data.idEstado.value], Disponible)
    requires CrearEquipo(db, s, data).res.Ok? && db2 == CrearEquipo(db, s, data).db
    ensures var out := AsignarRack(db2, s, rid, Some(rk));
      && out.res == Ok(3)
      && |RowsOf(out.db.asignaciones, rid)| == 3
      && |out.db.equipos| == |db2.equipos|
      && forall j | 0 <= j < |db2.equipos| && db2.equipos[j].rack == Some(rk) && EsDisponible(db2.estados, db2.equipos[j]) ::
           Labelled(out.db, j, EnUso)
  {
    CreatedAvailable(db, s, rk, data);
    assert Unassigned(db2, rid, 3) && rk in db2.racks;
    assert forall a | a in db2.asignaciones :: a < db2.next.asig;
    assert LabelKeys(db2.estados, EnUso) == LabelKeys(db.estados, EnUso);
    ThreeAssigned(db2, s, rid, rk);
  }

  /** The created device keeps the table in key order. */
  lemma EquiposChangeIncreasing(db: Db, e: Equipo)
    requires EquiposModels.Valid(db) && e.id == db.next.equipo
    ensures IdsIncreasing(db.equipos + [e])
  {
    var r := db.equipos + [e];
    forall i, j | 0 <= i < j < |r| ensures r[i].id < r[j].id {
      assert r[i] in db.equipos;
      if j < |db.equipos| { assert r[j] == db.equipos[j]; }
    }
  }

  // ---------------------------------------------------------------
  // Cancelling one hour and thirty hours ahead
  // ---------------------------------------------------------------

  const Hour: int := 3600

  /** The owning teacher gives a reason: a pending reservation one hour
      ahead is cancelled; an approved one one hour ahead is refused as too
      late; an approved one thirty hours ahead is cancelled. */
  lemma CancelWindow(db: Db, s: Session, rid: ReservaId, motivo: string, now: int)
    requires IsDocente(s) && Strip(motivo) != []
    requires rid in db.reservas && db.reservas[rid].usuario == s.usuarioId.value
    ensures var r := db.reservas[rid];
      var soon := Start(r) - Hour;
      var later := Start(r) - 30 * Hour;
      var pend := db.(reservas := db.reservas[rid := r.(estadoReserva := Pendiente)]);
      var apr := db.(reservas := db.reservas[rid := r.(estadoReserva := Aprobada)]);
      && CancelarReserva(pend, s, rid, Some(motivo), soon).res.Ok?
      && CancelarReserva(pend, s, rid, Some(motivo), soon).db.reservas[rid].estadoReserva == Rechazada
      && CancelarReserva(pend, s, rid, Some(motivo), soon).db.reservas[rid].motivoRechazo
           == Some(CanceladaPrefix + Strip(motivo))
      && CancelarReserva(apr, s, rid, Some(motivo), soon) == Step(apr, Err(CancelTooLate))
      && CancelarReserva(apr, s, rid, Some(motivo), later).res.Ok?
  {
    var r := db.reservas[rid];
    var pend := db.(reservas := db.reservas[rid := r.(estadoReserva := Pendiente)]);
    var apr := db.(reservas := db.reservas[rid := r.(estadoReserva := Aprobada)]);
    assert Start(apr.reservas[rid]) == Start(r);
    CancelMatchesFlag(pend, s, rid, Some(motivo), Start(r) - Hour);
    CancelMatchesFlag(apr, s, rid, Some(motivo), Start(r) - Hour);
    CancelMatchesFlag(apr, s, rid, Some(motivo), Start(r) - 30 * Hour);
  }

  // ---------------------------------------------------------------
  // The same serial number twice
  // ---------------------------------------------------------------

  /** A device created with serial "SN-1", then a second request with the
      same serial: the second is refused and the first device stays. */
  lemma SerialTwice(db: Db, s: Session, first: CoreViews.EquipoInput, second: CoreViews.EquipoInput)
    requires first.numSerie == Some("SN-1") && second.numSerie == Some("SN-1")
    requires CrearEquipo(db, s, first).res.Ok?
    ensures var db2 := CrearEquipo(db, s, first).db;
      && CrearEquipo(db2, s, second) == Step(db2, Err(DuplicateSerial))
      && exists e | e in db2.equipos :: e.id == CrearEquipo(db, s, first).res.value && e.numSerie == "SN-1"
  {
    var db2 := CrearEquipo(db, s, first).db;
    var e := db2.equipos[|db.equipos|];
    assert e in db2.equipos && e.numSerie == "SN-1";
  }
}
