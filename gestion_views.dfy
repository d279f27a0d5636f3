/** The administrator's reservation-management handlers of
    STR_Chromebook/Gestion_Equipos/views/gestion.py, each as a function from
    the database before the request to the database after it and the answer
    (`Step`), and the two listings of the detail page that feed them. The
    class in store.dfy carries these out step by step; the lemmas here state
    what each handler guarantees. */
module GestionViews {
  import opened Base
  import opened Text
  import opened CoreModels
  import opened EquiposModels

  /** The database after a request, and the answer. */
  datatype Step<T> = Step(db: Db, res: Result<T>)

  // ---------------------------------------------------------------
  // Selecting devices from a rack
  // ---------------------------------------------------------------

  /** The device's status label matches 'Disponible' case-insensitively. */
  predicate EsDisponible(estados: map<EstadoId, string>, e: Equipo) {
    e.estado in estados && IExact(estados[e.estado], Disponible)
  }

  /** `Equipo.objects.filter(id_rack=rk, id_estado_equipo__nom_estado__iexact='Disponible')`,
      in table order. */
  function Disponibles(estados: map<EstadoId, string>, eqs: seq<Equipo>, rk: RackId): (r: seq<Equipo>)
    ensures |r| <= |eqs|
    ensures forall e | e in r :: e in eqs && e.rack == Some(rk) && EsDisponible(estados, e)
  {
    if eqs == [] then []
    else
      var last := eqs[|eqs| - 1];
      var w := Disponibles(estados, eqs[..|eqs| - 1], rk);
      assert forall e | e in eqs[..|eqs| - 1] :: e in eqs;
      if last.rack == Some(rk) && EsDisponible(estados, last) then w + [last] else w
  }

  /** The query's `[:n]`. */
  function Take(s: seq<Equipo>, n: nat): (r: seq<Equipo>)
    ensures |r| == if n <= |s| then n else |s|
    ensures r == s[..|r|]
  {
    if n <= |s| then s[..n] else s
  }

  lemma {:induction false} DisponiblesAppend(estados: map<EstadoId, string>, a: seq<Equipo>, b: seq<Equipo>, rk: RackId)
    ensures Disponibles(estados, a + b, rk) == Disponibles(estados, a, rk) + Disponibles(estados, b, rk)
  {
    if b == [] {
      assert a + b == a;
    } else {
      var b' := b[..|b| - 1];
      DisponiblesAppend(estados, a, b', rk);
      assert (a + b)[..|a + b| - 1] == a + b';
      assert (a + b)[|a + b| - 1] == b[|b| - 1];
    }
  }

  /** The selection is in table order, so with increasing keys it has no
      repeated device. */
  lemma {:induction false} DisponiblesIncreasing(estados: map<EstadoId, string>, eqs: seq<Equipo>, rk: RackId)
    requires IdsIncreasing(eqs)
    ensures IdsIncreasing(Disponibles(estados, eqs, rk))
  {
    if eqs != [] {
      var p := eqs[..|eqs| - 1];
      var last := eqs[|eqs| - 1];
      DisponiblesIncreasing(estados, p, rk);
      var w := Disponibles(estados, p, rk);
      if last.rack == Some(rk) && EsDisponible(estados, last) {
        forall e | e in w ensures e.id < last.id {
          var i :| 0 <= i < |p| && p[i] == e;
        }
        var r := w + [last];
        forall i, j | 0 <= i < j < |r| ensures r[i].id < r[j].id {
          assert r[i] == w[i] && w[i] in w;
          if j < |w| { assert r[j] == w[j]; }
        }
      }
    }
  }

  /** The available devices of a rack up to position j + 1 are those up to
      position j, followed by device j when it qualifies. */
  lemma DisponiblesStep(estados: map<EstadoId, string>, eqs: seq<Equipo>, rk: RackId, j: nat)
    requires j < |eqs|
    ensures Disponibles(estados, eqs[..j + 1], rk) ==
              Disponibles(estados, eqs[..j], rk)
              + (if eqs[j].rack == Some(rk) && EsDisponible(estados, eqs[j]) then [eqs[j]] else [])
  {
    assert eqs[..j + 1][..j] == eqs[..j];
  }

  /** Every device selected before position j has a smaller key than device j. */
  lemma SelectedBefore(estados: map<EstadoId, string>, eqs: seq<Equipo>, rk: RackId, j: nat)
    requires IdsIncreasing(eqs) && j < |eqs|
    ensures forall x | x in Disponibles(estados, eqs[..j], rk) :: x.id < eqs[j].id
  {
    forall x | x in Disponibles(estados, eqs[..j], rk) ensures x.id < eqs[j].id {
      var i :| 0 <= i < j && eqs[..j][i] == x;
    }
  }

  /** The available devices of a rack around position j. */
  lemma DisponiblesAt(estados: map<EstadoId, string>, eqs: seq<Equipo>, rk: RackId, j: nat)
    requires j < |eqs|
    ensures Disponibles(estados, eqs, rk) ==
              Disponibles(estados, eqs[..j], rk)
              + (if eqs[j].rack == Some(rk) && EsDisponible(estados, eqs[j]) then [eqs[j]] else [])
              + Disponibles(estados, eqs[j + 1..], rk)
  {
    assert eqs == eqs[..j + 1] + eqs[j + 1..];
    DisponiblesAppend(estados, eqs[..j + 1], eqs[j + 1..], rk);
    DisponiblesStep(estados, eqs, rk, j);
  }

  /** The devices picked from a rack are exactly its first `n` available
      ones in table order: device j is picked when it is in the rack, its
      label is 'disponible' in any case, and fewer than `n` such devices
      come before it. */
  lemma FirstInOrder(estados: map<EstadoId, string>, eqs: seq<Equipo>, rk: RackId, n: nat, j: nat)
    requires IdsIncreasing(eqs) && j < |eqs|
    ensures eqs[j] in Take(Disponibles(estados, eqs, rk), n) <==>
              eqs[j].rack == Some(rk) && EsDisponible(estados, eqs[j])
              && |Disponibles(estados, eqs[..j], rk)| < n
  {
    var e := eqs[j];
    var pre := Disponibles(estados, eqs[..j], rk);
    var d := Disponibles(estados, eqs, rk);
    var t := Take(d, n);
    DisponiblesAt(estados, eqs, rk, j);
    if e.rack == Some(rk) && EsDisponible(estados, e) {
      assert d[|pre|] == e;
      if |pre| < n {
        assert t[|pre|] == e;
      } else {
        SelectedBefore(estados, eqs, rk, j);
        assert t == pre[..n];
        assert forall x | x in t :: x in pre;
        assert e !in pre;
      }
    } else {
      assert e !in d;
    }
  }

  lemma KeyDetermines(eqs: seq<Equipo>, a: nat, b: nat)
    requires IdsIncreasing(eqs) && a < |eqs| && b < |eqs| && eqs[a].id == eqs[b].id
    ensures a == b
  {
  }

  /** A device's key is among the picked ones exactly when the device itself is. */
  lemma PickedById(eqs: seq<Equipo>, cands: seq<Equipo>, j: nat)
    requires IdsIncreasing(eqs) && j < |eqs|
    requires forall c | c in cands :: c in eqs
    ensures eqs[j].id in Ids(cands) <==> eqs[j] in cands
  {
    if eqs[j].id in Ids(cands) {
      var i :| 0 <= i < |cands| && cands[i].id == eqs[j].id;
      assert cands[i] in cands;
      var k :| 0 <= k < |eqs| && eqs[k] == cands[i];
      KeyDetermines(eqs, k, j);
    }
    if eqs[j] in cands {
      var i :| 0 <= i < |cands| && cands[i] == eqs[j];
    }
  }

  // ---------------------------------------------------------------
  // Counting the rows of a reservation
  // ---------------------------------------------------------------

  /** `cant_solicitada - AsignacionEquipo.objects.filter(id_reserva=r).count()`. */
  function Needed(db: Db, rid: ReservaId): int
    requires rid in db.reservas
  {
    db.reservas[rid].cantSolicitada - |RowsOf(db.asignaciones, rid)|
  }

  /** The rows that `bulk_create` inserts, under consecutive fresh keys. */
  function NewRows(start: nat, rid: ReservaId, cands: seq<Equipo>): (m: map<AsigId, AsignacionEquipo>)
    ensures forall k :: k in m <==> start <= k < start + |cands|
    ensures forall k | k in m :: m[k] == AsignacionEquipo(rid, cands[k - start].id)
    decreases |cands|
  {
    if cands == [] then map[]
    else
      var n := |cands| - 1;
      var m := NewRows(start, rid, cands[..n]);
      assert forall k | k in m :: cands[..n][k - start] == cands[k - start];
      m[start + n := AsignacionEquipo(rid, cands[n].id)]
  }

  /** Some picked device is already paired with the reservation: the
      unique pair makes `bulk_create` fail as a whole. */
  predicate AnyPaired(asig: map<AsigId, AsignacionEquipo>, rid: ReservaId, cands: seq<Equipo>) {
    exists j | 0 <= j < |cands| :: EquiposModels.PairExists(asig, AsignacionEquipo(rid, cands[j].id))
  }

  /** `bulk_create` of the rows and `bulk_update` of the picked devices to status `k`. */
  function Insert(db: Db, rid: ReservaId, cands: seq<Equipo>, k: EstadoId): Db {
    db.(asignaciones := db.asignaciones + NewRows(db.next.asig, rid, cands),
        equipos := SetEstado(db.equipos, Ids(cands), k),
        next := db.next.(asig := db.next.asig + |cands|))
  }

  /** Rows added under unused keys, all for `rid`, add exactly their
      number to the rows of `rid`. */
  lemma RowsOfUnion(asig: map<AsigId, AsignacionEquipo>, nr: map<AsigId, AsignacionEquipo>, rid: ReservaId)
    requires asig.Keys !! nr.Keys
    requires forall k | k in nr :: nr[k].reserva == rid
    ensures RowsOf(asig + nr, rid) == RowsOf(asig, rid) + nr.Keys
    ensures |RowsOf(asig + nr, rid)| == |RowsOf(asig, rid)| + |nr.Keys|
  {
    assert RowsOf(asig + nr, rid) == RowsOf(asig, rid) + nr.Keys;
    assert RowsOf(asig, rid) !! nr.Keys;
  }

  /** The insert adds one row per picked device, all for `rid`, under keys
      not used before, and keeps every existing row. */
  lemma AddRows(asig: map<AsigId, AsignacionEquipo>, start: nat, rid: ReservaId, cands: seq<Equipo>)
    requires forall a | a in asig :: a < start
    ensures var m := asig + NewRows(start, rid, cands);
      && asig.Keys <= m.Keys
      && (forall a | a in asig :: m[a] == asig[a])
      && (forall a | a in m && a !in asig :: m[a].reserva == rid)
      && |m.Keys - asig.Keys| == |cands|
      && |RowsOf(m, rid)| == |RowsOf(asig, rid)| + |cands|
  {
    var nr := NewRows(start, rid, cands);
    NewKeys(asig, start, rid, cands);
    NewRowsSize(start, rid, cands);
    RowsOfUnion(asig, nr, rid);
  }

  lemma NewKeys(asig: map<AsigId, AsignacionEquipo>, start: nat, rid: ReservaId, cands: seq<Equipo>)
    requires forall a | a in asig :: a < start
    ensures asig.Keys !! NewRows(start, rid, cands).Keys
    ensures (asig + NewRows(start, rid, cands)).Keys - asig.Keys == NewRows(start, rid, cands).Keys
  {
  }

  /** One row per picked device. */
  lemma {:induction false} NewRowsSize(start: nat, rid: ReservaId, cands: seq<Equipo>)
    ensures |NewRows(start, rid, cands).Keys| == |cands|
    decreases |cands|
  {
    if cands != [] {
      var n := |cands| - 1;
      NewRowsSize(start, rid, cands[..n]);
      assert start + n !in NewRows(start, rid, cands[..n]);
    }
  }

  /** The new rows name distinct devices and none of them repeats an
      existing pair, so the pairs stay unique. */
  lemma NewRowsDistinct(asig: map<AsigId, AsignacionEquipo>, start: nat, rid: ReservaId, cands: seq<Equipo>)
    requires forall a | a in asig :: a < start
    requires forall a, b | a in asig && b in asig && a != b :: asig[a] != asig[b]
    requires IdsIncreasing(cands) && !AnyPaired(asig, rid, cands)
    ensures forall a, b | a in asig + NewRows(start, rid, cands) && b in asig + NewRows(start, rid, cands) && a != b ::
              (asig + NewRows(start, rid, cands))[a] != (asig + NewRows(start, rid, cands))[b]
  {
    var nr := NewRows(start, rid, cands);
    var m := asig + nr;
    forall a, b | a in m && b in m && a != b ensures m[a] != m[b] {
      if a in nr && b in nr {
        if a < b { assert cands[a - start].id < cands[b - start].id; }
        else { assert cands[b - start].id < cands[a - start].id; }
      } else if a in nr {
        assert !EquiposModels.PairExists(asig, AsignacionEquipo(rid, cands[a - start].id));
      } else if b in nr {
        assert !EquiposModels.PairExists(asig, AsignacionEquipo(rid, cands[b - start].id));
      }
    }
  }

  /** The new rows point at the reservation and at devices of the table,
      under keys below the advanced counter. */
  lemma NewRowsRefs(asig: map<AsigId, AsignacionEquipo>, start: nat, rid: ReservaId, cands: seq<Equipo>,
                    reservas: set<ReservaId>, ids: set<EquipoId>)
    requires forall a | a in asig :: a < start && asig[a].reserva in reservas && asig[a].equipo in ids
    requires rid in reservas && forall c | c in cands :: c.id in ids
    ensures forall a | a in asig + NewRows(start, rid, cands) ::
              && a < start + |cands|
              && (asig + NewRows(start, rid, cands))[a].reserva in reservas
              && (asig + NewRows(start, rid, cands))[a].equipo in ids
  {
    var nr := NewRows(start, rid, cands);
    forall a | a in asig + nr
      ensures a < start + |cands| && (asig + nr)[a].reserva in reservas && (asig + nr)[a].equipo in ids
    {
      if a in nr {
        assert cands[a - start] in cands;
      }
    }
  }

  /** Adding the rows of distinct devices of the table, none of them
      already paired with the reservation, keeps the database valid. */
  lemma AddRowsValid(db: Db, rid: ReservaId, cands: seq<Equipo>)
    requires EquiposModels.Valid(db) && rid in db.reservas
    requires IdsIncreasing(cands) && forall c | c in cands :: c.id in Ids(db.equipos)
    requires !AnyPaired(db.asignaciones, rid, cands)
    ensures EquiposModels.Valid(db.(asignaciones := db.asignaciones + NewRows(db.next.asig, rid, cands),
                                    next := db.next.(asig := db.next.asig + |cands|)))
  {
    var nr := NewRows(db.next.asig, rid, cands);
    var d := db.(asignaciones := db.asignaciones + nr, next := db.next.(asig := db.next.asig + |cands|));
    NewRowsDistinct(db.asignaciones, db.next.asig, rid, cands);
    NewRowsRefs(db.asignaciones, db.next.asig, rid, cands, db.reservas.Keys, Ids(db.equipos));
    assert AsignacionesOk(d);
    EquiposOkFrame(db, d);
    SupervisoresOkFrame(db, d);
    EvidenciasOkFrame(db, d);
    KeysFreshFrame(db, d);
  }

  /** The insert is the status change followed by the new rows. */
  lemma InsertSteps(db: Db, rid: ReservaId, cands: seq<Equipo>, k: EstadoId)
    ensures var d1 := db.(equipos := SetEstado(db.equipos, Ids(cands), k));
      Insert(db, rid, cands, k) == d1.(asignaciones := d1.asignaciones + NewRows(d1.next.asig, rid, cands),
                                       next := d1.next.(asig := d1.next.asig + |cands|))
  {
  }

  /** The status change keeps the database valid and every picked device
      in the table. */
  lemma StatusStepValid(db: Db, cands: seq<Equipo>, k: EstadoId)
    requires EquiposModels.Valid(db) && k in db.estados
    requires forall c | c in cands :: c in db.equipos
    ensures EquiposModels.Valid(db.(equipos := SetEstado(db.equipos, Ids(cands), k)))
    ensures WithinCapacity(db) ==> WithinCapacity(db.(equipos := SetEstado(db.equipos, Ids(cands), k)))
    ensures forall c | c in cands :: c.id in Ids(SetEstado(db.equipos, Ids(cands), k))
  {
    SetEstadoValid(db, Ids(cands), k);
    SetEstadoKeeps(db.equipos, Ids(cands), k);
    forall c | c in cands ensures c.id in Ids(db.equipos) {
      var i :| 0 <= i < |db.equipos| && db.equipos[i] == c;
    }
  }

  /** The whole insert keeps the database valid, and keeps every rack
      within its capacity since no device moves. */
  lemma InsertValid(db: Db, rid: ReservaId, cands: seq<Equipo>, k: EstadoId)
    requires EquiposModels.Valid(db) && rid in db.reservas && k in db.estados
    requires IdsIncreasing(cands) && forall c | c in cands :: c in db.equipos
    requires !AnyPaired(db.asignaciones, rid, cands)
    ensures EquiposModels.Valid(Insert(db, rid, cands, k))
    ensures WithinCapacity(db) ==> WithinCapacity(Insert(db, rid, cands, k))
  {
    StatusStepValid(db, cands, k);
    InsertSteps(db, rid, cands, k);
    AddRowsValid(db.(equipos := SetEstado(db.equipos, Ids(cands), k)), rid, cands);
  }

  // ---------------------------------------------------------------
  // api_asignar_rack
  // ---------------------------------------------------------------

  /** What follows the count checks: get_or_create of 'En uso', then the
      insert, which fails as a whole if a pair already exists; the label
      created by get_or_create is not rolled back. */
  ghost function Commit(db: Db, rid: ReservaId, cands: seq<Equipo>): (out: Step<nat>)
    ensures out.res.Err? && out.res != Err(IntegrityError) ==> out.db == db
    ensures out.res == Err(IntegrityError) ==>
              out.db == db.(estados := out.db.estados, next := out.db.next)
              && out.db.next == db.next.(estado := out.db.next.estado)
              && db.estados.Keys <= out.db.estados.Keys
  {
    match GetOrCreateEstado(db, EnUso)
    case Err(e) => Step(db, Err(e))
    case Ok((db1, enUso)) =>
      if AnyPaired(db1.asignaciones, rid, cands) then Step(db1, Err(IntegrityError))
      else Step(Insert(db1, rid, cands, enUso), Ok(|cands|))
  }

  /** Bulk assignment of the missing devices from one rack. Every error
      leaves the database as it was, except the failed insert, after which
      the 'En uso' label created by get_or_create remains. */
  ghost function AsignarRack(db: Db, s: Session, rid: ReservaId, rackId: Option<nat>): (out: Step<nat>)
    ensures out.res.Err? && out.res != Err(IntegrityError) ==> out.db == db
    ensures out.res == Err(IntegrityError) ==>
              out.db == db.(estados := out.db.estados, next := out.db.next)
              && out.db.next == db.next.(estado := out.db.next.estado)
              && db.estados.Keys <= out.db.estados.Keys
  {
    if !IsAdmin(s) then Step(db, Err(AccessDenied))
    else if rid !in db.reservas then Step(db, Err(NotFound))
    else if rackId.None? || rackId.value == 0 then Step(db, Err(RackNotSelected))
    else if rackId.value !in db.racks then Step(db, Err(NotFound))
    else
      var needed := Needed(db, rid);
      if needed <= 0 then Step(db, Err(AlreadyFullyAssigned))
      else
        var cands := Take(Disponibles(db.estados, db.equipos, rackId.value), needed);
        if |cands| < needed then Step(db, Err(NotEnoughAvailable(|cands|, needed)))
        else Commit(db, rid, cands)
  }

  /** The outcomes that reach the insert, and what they insert. */
  lemma AsignarRackCommits(db: Db, s: Session, rid: ReservaId, rackId: Option<nat>)
    requires AsignarRack(db, s, rid, rackId).res.Ok? || AsignarRack(db, s, rid, rackId).res == Err(IntegrityError)
    ensures IsAdmin(s) && rid in db.reservas && rackId.Some? && rackId.value != 0 && rackId.value in db.racks
    ensures Needed(db, rid) > 0
    ensures |Take(Disponibles(db.estados, db.equipos, rackId.value), Needed(db, rid))| == Needed(db, rid)
    ensures AsignarRack(db, s, rid, rackId) ==
              Commit(db, rid, Take(Disponibles(db.estados, db.equipos, rackId.value), Needed(db, rid)))
  {
  }

  /** A reservation that already has all its devices is refused, unchanged. */
  lemma AsignarRackNothingNeeded(db: Db, s: Session, rid: ReservaId, rackId: nat)
    requires IsAdmin(s) && rid in db.reservas && rackId in db.racks && rackId != 0
    requires Needed(db, rid) <= 0
    ensures AsignarRack(db, s, rid, Some(rackId)) == Step(db, Err(AlreadyFullyAssigned))
  {
  }

  /** All or nothing: a rack with fewer available devices than needed is
      refused, and no row or device changes. */
  lemma AsignarRackAllOrNothing(db: Db, s: Session, rid: ReservaId, rackId: nat)
    requires IsAdmin(s) && rid in db.reservas && rackId in db.racks && rackId != 0
    requires 0 < Needed(db, rid)
    requires |Disponibles(db.estados, db.equipos, rackId)| < Needed(db, rid)
    ensures AsignarRack(db, s, rid, Some(rackId)).db == db
    ensures AsignarRack(db, s, rid, Some(rackId)).res ==
              Err(NotEnoughAvailable(|Disponibles(db.estados, db.equipos, rackId)|, Needed(db, rid) as nat))
  {
  }

  /** A successful bulk assignment adds exactly the missing number of rows,
      all for this reservation, so the reservation then has exactly
      `cant_solicitada` rows; no other row changes. */
  lemma AsignarRackRows(db: Db, s: Session, rid: ReservaId, rackId: Option<nat>)
    requires forall a | a in db.asignaciones :: a < db.next.asig
    requires AsignarRack(db, s, rid, rackId).res.Ok?
    ensures var out := AsignarRack(db, s, rid, rackId);
      && rid in db.reservas
      && out.res.value == Needed(db, rid)
      && db.asignaciones.Keys <= out.db.asignaciones.Keys
      && (forall k | k in db.asignaciones :: out.db.asignaciones[k] == db.asignaciones[k])
      && (forall k | k in out.db.asignaciones && k !in db.asignaciones :: out.db.asignaciones[k].reserva == rid)
      && |out.db.asignaciones.Keys - db.asignaciones.Keys| == out.res.value
      && |RowsOf(out.db.asignaciones, rid)| == db.reservas[rid].cantSolicitada
      && out.db.reservas == db.reservas && out.db.supervisores == db.supervisores
      && out.db.evidencias == db.evidencias && out.db.racks == db.racks && out.db.catalog == db.catalog
  {
    AsignarRackCommits(db, s, rid, rackId);
    var cands := Take(Disponibles(db.estados, db.equipos, rackId.value), Needed(db, rid));
    CommitRows(db, rid, cands);
  }

  /** A successful commit adds one row per picked device, all for `rid`,
      under unused keys, and changes no other table but the devices and
      the status labels. */
  lemma CommitRows(db: Db, rid: ReservaId, cands: seq<Equipo>)
    requires forall a | a in db.asignaciones :: a < db.next.asig
    requires Commit(db, rid, cands).res.Ok?
    ensures var out := Commit(db, rid, cands);
      && out.res.value == |cands|
      && db.asignaciones.Keys <= out.db.asignaciones.Keys
      && (forall k | k in db.asignaciones :: out.db.asignaciones[k] == db.asignaciones[k])
      && (forall k | k in out.db.asignaciones && k !in db.asignaciones :: out.db.asignaciones[k].reserva == rid)
      && |out.db.asignaciones.Keys - db.asignaciones.Keys| == |cands|
      && |RowsOf(out.db.asignaciones, rid)| == |RowsOf(db.asignaciones, rid)| + |cands|
      && out.db.reservas == db.reservas && out.db.supervisores == db.supervisores
      && out.db.evidencias == db.evidencias && out.db.racks == db.racks && out.db.catalog == db.catalog
  {
    var g := GetOrCreateEstado(db, EnUso);
    var db1, enUso := g.value.0, g.value.1;
    assert Commit(db, rid, cands) == Step(Insert(db1, rid, cands, enUso), Ok(|cands|));
    assert db1.asignaciones == db.asignaciones && db1.next.asig == db.next.asig;
    AddRows(db.asignaciones, db.next.asig, rid, cands);
  }

  /** A successful commit sets exactly the picked devices to a status
      labelled 'En uso'. */
  lemma CommitDevices(db: Db, rid: ReservaId, cands: seq<Equipo>)
    requires Commit(db, rid, cands).res.Ok?
    ensures var out := Commit(db, rid, cands);
      && |out.db.equipos| == |db.equipos|
      && forall j | 0 <= j < |db.equipos| ::
           && (db.equipos[j].id in Ids(cands) ==>
                 out.db.equipos[j] == db.equipos[j].(estado := out.db.equipos[j].estado)
                 && out.db.equipos[j].estado in out.db.estados && out.db.estados[out.db.equipos[j].estado] == EnUso)
           && (db.equipos[j].id !in Ids(cands) ==> out.db.equipos[j] == db.equipos[j])
  {
    var g := GetOrCreateEstado(db, EnUso);
    var db1, enUso := g.value.0, g.value.1;
    assert Commit(db, rid, cands).db == Insert(db1, rid, cands, enUso);
  }

  /** A successful bulk assignment picks the rack's first `needed`
      available devices in table order, sets exactly those to a status
      labelled 'En uso', and changes no other device. */
  lemma AsignarRackDevices(db: Db, s: Session, rid: ReservaId, rk: nat)
    requires IdsIncreasing(db.equipos) && AsignarRack(db, s, rid, Some(rk)).res.Ok?
    ensures var out := AsignarRack(db, s, rid, Some(rk));
      var needed := out.res.value;
      && |out.db.equipos| == |db.equipos|
      && forall j | 0 <= j < |db.equipos| ::
           var picked := db.equipos[j].rack == Some(rk) && EsDisponible(db.estados, db.equipos[j])
                         && |Disponibles(db.estados, db.equipos[..j], rk)| < needed;
           && (picked ==> out.db.equipos[j] == db.equipos[j].(estado := out.db.equipos[j].estado)
                          && out.db.equipos[j].estado in out.db.estados && out.db.estados[out.db.equipos[j].estado] == EnUso)
           && (!picked ==> out.db.equipos[j] == db.equipos[j])
  {
    AsignarRackCommits(db, s, rid, Some(rk));
    var needed := Needed(db, rid);
    var cands := Take(Disponibles(db.estados, db.equipos, rk), needed);
    CommitDevices(db, rid, cands);
    forall j | 0 <= j < |db.equipos|
      ensures db.equipos[j].id in Ids(cands) <==>
                db.equipos[j].rack == Some(rk) && EsDisponible(db.estados, db.equipos[j])
                && |Disponibles(db.estados, db.equipos[..j], rk)| < needed
    {
      FirstInOrder(db.estados, db.equipos, rk, needed, j);
      PickedById(db.equipos, cands, j);
    }
  }

  /** A commit of distinct devices of the table keeps the database valid. */
  lemma CommitValid(db: Db, rid: ReservaId, cands: seq<Equipo>)
    requires EquiposModels.Valid(db) && rid in db.reservas
    requires IdsIncreasing(cands) && forall c | c in cands :: c in db.equipos
    ensures EquiposModels.Valid(Commit(db, rid, cands).db)
    ensures WithinCapacity(db) ==> WithinCapacity(Commit(db, rid, cands).db)
  {
    var out := Commit(db, rid, cands);
    if out.res.Ok? || out.res == Err(IntegrityError) {
      GetOrCreateValid(db, EnUso);
      var g := GetOrCreateEstado(db, EnUso);
      var db1, enUso := g.value.0, g.value.1;
      if out.res.Ok? {
        assert out.db == Insert(db1, rid, cands, enUso);
        InsertValid(db1, rid, cands, enUso);
      }
    }
  }

  /** The bulk assignment keeps the database valid on every outcome. */
  lemma AsignarRackValid(db: Db, s: Session, rid: ReservaId, rackId: Option<nat>)
    requires EquiposModels.Valid(db)
    ensures EquiposModels.Valid(AsignarRack(db, s, rid, rackId).db)
    ensures WithinCapacity(db) ==> WithinCapacity(AsignarRack(db, s, rid, rackId).db)
  {
    var out := AsignarRack(db, s, rid, rackId);
    if out.res.Ok? || out.res == Err(IntegrityError) {
      AsignarRackCommits(db, s, rid, rackId);
      var rk := rackId.value;
      var cands := Take(Disponibles(db.estados, db.equipos, rk), Needed(db, rid));
      Picked(db.estados, db.equipos, rk, Needed(db, rid));
      CommitValid(db, rid, cands);
    }
  }

  /** The picked devices are distinct devices of the table. */
  lemma Picked(estados: map<EstadoId, string>, eqs: seq<Equipo>, rk: RackId, n: nat)
    requires IdsIncreasing(eqs)
    ensures IdsIncreasing(Take(Disponibles(estados, eqs, rk), n))
    ensures forall c | c in Take(Disponibles(estados, eqs, rk), n) :: c in eqs
  {
    var d := Disponibles(estados, eqs, rk);
    DisponiblesIncreasing(estados, eqs, rk);
    var t := Take(d, n);
    forall c | c in t ensures c in eqs {
      var i :| 0 <= i < |t| && t[i] == c;
      assert d[i] in d;
    }
  }

  // ---------------------------------------------------------------
  // api_desasignar_todos_equipos, api_desasignar_equipo
  // ---------------------------------------------------------------

  /** The rows of every other reservation. */
  function RowsNotOf(asig: map<AsigId, AsignacionEquipo>, rid: ReservaId): (m: map<AsigId, AsignacionEquipo>)
    ensures forall k :: k in m <==> k in asig && asig[k].reserva != rid
    ensures forall k | k in m :: m[k] == asig[k]
  {
    map k | k in asig && asig[k].reserva != rid :: asig[k]
  }

  /** Unassign all: refused when the reservation has no rows; otherwise
      every row of this reservation goes, and exactly the devices they
      named get a status labelled 'Disponible'. Runs in one transaction:
      every error leaves the database as it was. */
  ghost function DesasignarTodos(db: Db, s: Session, rid: ReservaId): (out: Step<()>)
    ensures out.res.Err? ==> out.db == db
    ensures out.res.Err? && IsAdmin(s) && rid in db.reservas && RowsOf(db.asignaciones, rid) == {} ==>
              out.res == Err(NothingToUnassign)
  {
    if !IsAdmin(s) then Step(db, Err(AccessDenied))
    else if rid !in db.reservas then Step(db, Err(NotFound))
    else if RowsOf(db.asignaciones, rid) == {} then Step(db, Err(NothingToUnassign))
    else match GetOrCreateEstado(db, Disponible)
      case Err(e) => Step(db, Err(e))
      case Ok((db1, d)) =>
        Step(db1.(asignaciones := RowsNotOf(db1.asignaciones, rid),
                  equipos := SetEstado(db1.equipos, EquiposOf(db1.asignaciones, rid), d)),
             Ok(()))
  }

  lemma DesasignarTodosEffect(db: Db, s: Session, rid: ReservaId)
    requires DesasignarTodos(db, s, rid).res.Ok?
    ensures var out := DesasignarTodos(db, s, rid);
      && RowsOf(db.asignaciones, rid) != {}
      && (forall k :: k in out.db.asignaciones <==> k in db.asignaciones && db.asignaciones[k].reserva != rid)
      && (forall k | k in out.db.asignaciones :: out.db.asignaciones[k] == db.asignaciones[k])
      && |out.db.equipos| == |db.equipos|
      && (forall j | 0 <= j < |db.equipos| ::
            if db.equipos[j].id in EquiposOf(db.asignaciones, rid)
            then out.db.equipos[j] == db.equipos[j].(estado := out.db.equipos[j].estado)
                 && out.db.estados[out.db.equipos[j].estado] == Disponible
            else out.db.equipos[j] == db.equipos[j])
      && out.db.reservas == db.reservas && out.db.supervisores == db.supervisores
      && out.db.evidencias == db.evidencias && out.db.racks == db.racks
  {
    var g := GetOrCreateEstado(db, Disponible);
    var db1, d := g.value.0, g.value.1;
    var out := DesasignarTodos(db, s, rid);
    assert out.db == db1.(asignaciones := RowsNotOf(db.asignaciones, rid),
                          equipos := SetEstado(db.equipos, EquiposOf(db.asignaciones, rid), d));
  }

  lemma DesasignarTodosValid(db: Db, s: Session, rid: ReservaId)
    requires EquiposModels.Valid(db)
    ensures EquiposModels.Valid(DesasignarTodos(db, s, rid).db)
    ensures WithinCapacity(db) ==> WithinCapacity(DesasignarTodos(db, s, rid).db)
  {
    var out := DesasignarTodos(db, s, rid);
    if out.res.Ok? {
      GetOrCreateValid(db, Disponible);
      var g := GetOrCreateEstado(db, Disponible);
      var db1, d := g.value.0, g.value.1;
      SetEstadoValid(db1, EquiposOf(db1.asignaciones, rid), d);
      var db2 := db1.(equipos := SetEstado(db1.equipos, EquiposOf(db1.asignaciones, rid), d));
      AsignacionesShrinkValid(db2, RowsNotOf(db1.asignaciones, rid));
      assert out.db == db2.(asignaciones := RowsNotOf(db1.asignaciones, rid));
    }
  }

  /** Unassign one row: it is deleted and its device gets a status
      labelled 'Disponible'. */
  ghost function DesasignarEquipo(db: Db, s: Session, aid: AsigId): (out: Step<()>)
    ensures out.res.Err? ==> out.db == db
    ensures out.res.Ok? ==> aid in db.asignaciones && out.db.asignaciones == db.asignaciones - {aid}
  {
    if !IsAdmin(s) then Step(db, Err(AccessDenied))
    else if aid !in db.asignaciones then Step(db, Err(NotFound))
    else match GetOrCreateEstado(db, Disponible)
      case Err(e) => Step(db, Err(e))
      case Ok((db1, d)) =>
        Step(db1.(equipos := SetEstado(db1.equipos, {db1.asignaciones[aid].equipo}, d),
                  asignaciones := db1.asignaciones - {aid}),
             Ok(()))
  }

  lemma DesasignarEquipoEffect(db: Db, s: Session, aid: AsigId)
    requires DesasignarEquipo(db, s, aid).res.Ok?
    ensures var out := DesasignarEquipo(db, s, aid);
      && aid in db.asignaciones
      && |out.db.equipos| == |db.equipos|
      && (forall j | 0 <= j < |db.equipos| ::
            if db.equipos[j].id == db.asignaciones[aid].equipo
            then out.db.equipos[j] == db.equipos[j].(estado := out.db.equipos[j].estado)
                 && out.db.estados[out.db.equipos[j].estado] == Disponible
            else out.db.equipos[j] == db.equipos[j])
      && out.db.reservas == db.reservas && out.db.supervisores == db.supervisores
      && out.db.evidencias == db.evidencias && out.db.racks == db.racks
  {
    var g := GetOrCreateEstado(db, Disponible);
    var db1, d := g.value.0, g.value.1;
    var out := DesasignarEquipo(db, s, aid);
    assert out.db == db1.(equipos := SetEstado(db.equipos, {db.asignaciones[aid].equipo}, d),
                          asignaciones := db.asignaciones - {aid});
  }

  lemma DesasignarEquipoValid(db: Db, s: Session, aid: AsigId)
    requires EquiposModels.Valid(db)
    ensures EquiposModels.Valid(DesasignarEquipo(db, s, aid).db)
    ensures WithinCapacity(db) ==> WithinCapacity(DesasignarEquipo(db, s, aid).db)
  {
    var out := DesasignarEquipo(db, s, aid);
    if out.res.Ok? {
      GetOrCreateValid(db, Disponible);
      var g := GetOrCreateEstado(db, Disponible);
      var db1, d := g.value.0, g.value.1;
      SetEstadoValid(db1, {db1.asignaciones[aid].equipo}, d);
      var db2 := db1.(equipos := SetEstado(db1.equipos, {db1.asignaciones[aid].equipo}, d));
      AsignacionesShrinkValid(db2, db1.asignaciones - {aid});
      assert out.db == db2.(asignaciones := db1.asignaciones - {aid});
    }
  }

  // ---------------------------------------------------------------
  // Supervisors and evidence
  // ---------------------------------------------------------------

  /** `usuario.id_tipo_usuario.nom_rol`. */
  function RolName(cat: Catalog, uid: UserId): Option<string> {
    if uid in cat.usuarios && cat.usuarios[uid].rol in cat.roles then Some(cat.roles[cat.usuarios[uid].rol])
    else None
  }

  /** Assign a supervisor: the user's role must be exactly 'Supervisor',
      and get_or_create refuses a pair that already has a row. On success
      exactly one row is added, under the next key. */
  ghost function AsignarSupervisor(db: Db, s: Session, rid: ReservaId, sid: Option<nat>): (out: Step<SupervisorReservaId>)
    ensures out.res.Err? ==> out.db == db
    ensures out.res.Ok? ==>
      && sid.Some? && RolName(db.catalog, sid.value) == Some(Supervisor)
      && !SupervisorPairExists(db.supervisores, SupervisorReserva(rid, sid.value))
      && out.res.value == db.next.supervisor
      && out.db.supervisores == db.supervisores[out.res.value := SupervisorReserva(rid, sid.value)]
      && out.db == db.(supervisores := out.db.supervisores, next := db.next.(supervisor := db.next.supervisor + 1))
    ensures IsAdmin(s) && rid in db.reservas && sid.Some? && sid.value in db.catalog.usuarios ==>
      && (RolName(db.catalog, sid.value) != Some(Supervisor) ==> out.res == Err(NotASupervisor))
      && (RolName(db.catalog, sid.value) == Some(Supervisor)
          && SupervisorPairExists(db.supervisores, SupervisorReserva(rid, sid.value)) ==>
            out.res == Err(SupervisorAlreadyAssigned))
  {
    if !IsAdmin(s) then Step(db, Err(AccessDenied))
    else if rid !in db.reservas then Step(db, Err(NotFound))
    else if sid.None? || sid.value !in db.catalog.usuarios then Step(db, Err(NotFound))
    else if RolName(db.catalog, sid.value) != Some(Supervisor) then Step(db, Err(NotASupervisor))
    else if SupervisorPairExists(db.supervisores, SupervisorReserva(rid, sid.value)) then
      Step(db, Err(SupervisorAlreadyAssigned))
    else
      var k := db.next.supervisor;
      Step(db.(supervisores := db.supervisores[k := SupervisorReserva(rid, sid.value)],
               next := db.next.(supervisor := k + 1)),
           Ok(k))
  }

  /** The new row's key was unused, and the pair stays unique. */
  lemma AsignarSupervisorValid(db: Db, s: Session, rid: ReservaId, sid: Option<nat>)
    requires EquiposModels.Valid(db)
    ensures EquiposModels.Valid(AsignarSupervisor(db, s, rid, sid).db)
    ensures WithinCapacity(db) ==> WithinCapacity(AsignarSupervisor(db, s, rid, sid).db)
    ensures AsignarSupervisor(db, s, rid, sid).res.Ok? ==> AsignarSupervisor(db, s, rid, sid).res.value !in db.supervisores
  {
    if AsignarSupervisor(db, s, rid, sid).res.Ok? {
      SupervisorInsertValid(db, SupervisorReserva(rid, sid.value));
    }
  }

  ghost function DesasignarSupervisor(db: Db, s: Session, k: SupervisorReservaId): (out: Step<()>)
    ensures out.res.Err? ==> out.db == db
    ensures out.res.Ok? <==> IsAdmin(s) && k in db.supervisores
    ensures out.res.Ok? ==> out.db == db.(supervisores := db.supervisores - {k})
  {
    if !IsAdmin(s) then Step(db, Err(AccessDenied))
    else if k !in db.supervisores then Step(db, Err(NotFound))
    else Step(db.(supervisores := db.supervisores - {k}), Ok(()))
  }

  /** Upload of an evidence record from the detail page: the page needs a
      logged-in administrator who exists, the reservation, and a type among
      the choices. The photo file itself is not modelled. */
  ghost function SubirEvidencia(db: Db, s: Session, rid: ReservaId, tipo: string, descripcion: Option<string>): (out: Step<EvidenciaId>)
    ensures out.res.Err? ==> out.db == db
    ensures out.res.Ok? ==>
      && IsTipoEvidencia(tipo) && rid in db.reservas && out.res.value == db.next.evidencia
      && out.db == db.(evidencias := db.evidencias[out.res.value := EvidenciaReserva(tipo, descripcion, rid)],
                       next := db.next.(evidencia := db.next.evidencia + 1))
  {
    if !LoggedIn(s) || !IsAdmin(s) then Step(db, Err(AccessDenied))
    else if s.usuarioId.value !in db.catalog.usuarios then Step(db, Err(NotFound))
    else if rid !in db.reservas then Step(db, Err(NotFound))
    else if !IsTipoEvidencia(tipo) then Step(db, Err(InvalidForm))
    else
      var k := db.next.evidencia;
      Step(db.(evidencias := db.evidencias[k := EvidenciaReserva(tipo, descripcion, rid)],
               next := db.next.(evidencia := k + 1)),
           Ok(k))
  }

  /** Evidence added by the page always has one of the two types. */
  lemma SubirEvidenciaValid(db: Db, s: Session, rid: ReservaId, tipo: string, descripcion: Option<string>)
    requires EquiposModels.Valid(db)
    ensures EquiposModels.Valid(SubirEvidencia(db, s, rid, tipo, descripcion).db)
    ensures WithinCapacity(db) ==> WithinCapacity(SubirEvidencia(db, s, rid, tipo, descripcion).db)
    ensures forall k | k in SubirEvidencia(db, s, rid, tipo, descripcion).db.evidencias ::
              IsTipoEvidencia(SubirEvidencia(db, s, rid, tipo, descripcion).db.evidencias[k].tipo)
  {
    if SubirEvidencia(db, s, rid, tipo, descripcion).res.Ok? {
      EvidenciaInsertValid(db, EvidenciaReserva(tipo, descripcion, rid));
    }
  }

  ghost function EliminarEvidencia(db: Db, s: Session, k: EvidenciaId): (out: Step<()>)
    ensures out.res.Err? ==> out.db == db
    ensures out.res.Ok? <==> IsAdmin(s) && k in db.evidencias
    ensures out.res.Ok? ==> out.db == db.(evidencias := db.evidencias - {k})
  {
    if !IsAdmin(s) then Step(db, Err(AccessDenied))
    else if k !in db.evidencias then Step(db, Err(NotFound))
    else Step(db.(evidencias := db.evidencias - {k}), Ok(()))
  }

  lemma RemovalsValid(db: Db, s: Session, k: nat)
    requires EquiposModels.Valid(db)
    ensures EquiposModels.Valid(DesasignarSupervisor(db, s, k).db)
    ensures EquiposModels.Valid(EliminarEvidencia(db, s, k).db)
    ensures WithinCapacity(db) ==> WithinCapacity(DesasignarSupervisor(db, s, k).db)
    ensures WithinCapacity(db) ==> WithinCapacity(EliminarEvidencia(db, s, k).db)
  {
    SupervisorRemoveValid(db, k);
    EvidenciaRemoveValid(db, k);
  }

  // ---------------------------------------------------------------
  // api_actualizar_gestion, api_finalizar_reserva
  // ---------------------------------------------------------------

  /** A timestamp key of the request body: absent, null or empty; text
      that `datetime.fromisoformat` reads; or anything else. */
  datatype TimestampInput = NoValue | Parsed(t: int) | Unparseable

  function TimestampValue(t: TimestampInput): Option<int>
    requires !t.Unparseable?
  {
    if t.Parsed? then Some(t.t) else None
  }

  /** Save the notes and timestamps of a reservation. `observaciones` is
      None when the key is absent (the old notes stay) and Some(v) when it
      is present (v itself may be null). Each timestamp is set when given
      and cleared when missing or empty; one that does not parse fails the
      whole request before anything is saved. */
  ghost function ActualizarGestion(db: Db, s: Session, rid: ReservaId, observaciones: Option<Option<string>>,
                                   entrega: TimestampInput, devolucion: TimestampInput): (out: Step<()>)
    ensures out.res.Err? ==> out.db == db
    ensures out.res.Ok? <==> IsAdmin(s) && rid in db.reservas && !entrega.Unparseable? && !devolucion.Unparseable?
    ensures out.res.Ok? ==>
      var r := db.reservas[rid];
      && out.db.reservas.Keys == db.reservas.Keys
      && out.db.reservas[rid].observaciones == (if observaciones.None? then r.observaciones else observaciones.value)
      && out.db.reservas[rid].fechaEntrega == (if entrega.Parsed? then Some(entrega.t) else None)
      && out.db.reservas[rid].fechaDevolucion == (if devolucion.Parsed? then Some(devolucion.t) else None)
      && out.db.reservas[rid] == r.(observaciones := out.db.reservas[rid].observaciones,
                                    fechaEntrega := out.db.reservas[rid].fechaEntrega,
                                    fechaDevolucion := out.db.reservas[rid].fechaDevolucion)
      && out.db == db.(reservas := db.reservas[rid := out.db.reservas[rid]])
  {
    if !IsAdmin(s) then Step(db, Err(AccessDenied))
    else if rid !in db.reservas then Step(db, Err(NotFound))
    else if entrega.Unparseable? || devolucion.Unparseable? then Step(db, Err(InvalidTimestamp))
    else
      var r := db.reservas[rid];
      var obs := if observaciones.Some? then observaciones.value else r.observaciones;
      var r' := r.(observaciones := obs, fechaEntrega := TimestampValue(entrega),
                   fechaDevolucion := TimestampValue(devolucion));
      Step(db.(reservas := db.reservas[rid := r']), Ok(()))
  }

  /** Finalize: only an 'Aprobada' reservation (exact match); its devices
      get a status labelled 'Disponible', their rows stay, the status becomes
      'Finalizada' and the return time is stamped with `now` only if it was
      unset. Runs in one transaction: every error leaves the database as
      it was. */
  ghost function FinalizarReserva(db: Db, s: Session, rid: ReservaId, now: int): (out: Step<()>)
    ensures out.res.Err? ==> out.db == db
    ensures IsAdmin(s) && rid in db.reservas && db.reservas[rid].estadoReserva != Aprobada ==>
              out.res == Err(OnlyApprovedCanBeFinalized(db.reservas[rid].estadoReserva))
    ensures out.res.Ok? ==> rid in db.reservas && db.reservas[rid].estadoReserva == Aprobada
    ensures out.res.Ok? && rid in db.reservas ==>
      var r := db.reservas[rid];
      && out.db.asignaciones == db.asignaciones
      && out.db.reservas == db.reservas[rid := r.(estadoReserva := Finalizada,
                                                  fechaDevolucion := if r.fechaDevolucion.None? then Some(now) else r.fechaDevolucion)]
  {
    if !IsAdmin(s) then Step(db, Err(AccessDenied))
    else if rid !in db.reservas then Step(db, Err(NotFound))
    else
      var r := db.reservas[rid];
      if r.estadoReserva != Aprobada then Step(db, Err(OnlyApprovedCanBeFinalized(r.estadoReserva)))
      else match GetOrCreateEstado(db, Disponible)
        case Err(e) => Step(db, Err(e))
        case Ok((db1, d)) =>
          var r' := r.(estadoReserva := Finalizada,
                       fechaDevolucion := if r.fechaDevolucion.None? then Some(now) else r.fechaDevolucion);
          Step(db1.(equipos := SetEstado(db1.equipos, EquiposOf(db1.asignaciones, rid), d),
                    reservas := db1.reservas[rid := r']),
               Ok(()))
  }

  lemma FinalizarReservaEffect(db: Db, s: Session, rid: ReservaId, now: int)
    requires FinalizarReserva(db, s, rid, now).res.Ok?
    ensures var out := FinalizarReserva(db, s, rid, now);
      && |out.db.equipos| == |db.equipos|
      && (forall j | 0 <= j < |db.equipos| ::
            if db.equipos[j].id in EquiposOf(db.asignaciones, rid)
            then out.db.equipos[j] == db.equipos[j].(estado := out.db.equipos[j].estado)
                 && out.db.estados[out.db.equipos[j].estado] == Disponible
            else out.db.equipos[j] == db.equipos[j])
      && out.db.supervisores == db.supervisores && out.db.evidencias == db.evidencias
      && out.db.racks == db.racks
  {
    var g := GetOrCreateEstado(db, Disponible);
    var db1, d := g.value.0, g.value.1;
    var out := FinalizarReserva(db, s, rid, now);
    assert out.db.equipos == SetEstado(db.equipos, EquiposOf(db.asignaciones, rid), d);
  }

  lemma ActualizarGestionValid(db: Db, s: Session, rid: ReservaId, observaciones: Option<Option<string>>,
                               entrega: TimestampInput, devolucion: TimestampInput)
    requires EquiposModels.Valid(db)
    ensures EquiposModels.Valid(ActualizarGestion(db, s, rid, observaciones, entrega, devolucion).db)
    ensures WithinCapacity(db) ==> WithinCapacity(ActualizarGestion(db, s, rid, observaciones, entrega, devolucion).db)
  {
  }

  lemma FinalizarReservaValid(db: Db, s: Session, rid: ReservaId, now: int)
    requires EquiposModels.Valid(db)
    ensures EquiposModels.Valid(FinalizarReserva(db, s, rid, now).db)
    ensures WithinCapacity(db) ==> WithinCapacity(FinalizarReserva(db, s, rid, now).db)
  {
    var out := FinalizarReserva(db, s, rid, now);
    if out.res.Ok? {
      GetOrCreateValid(db, Disponible);
      var g := GetOrCreateEstado(db, Disponible);
      var db1, d := g.value.0, g.value.1;
      SetEstadoValid(db1, EquiposOf(db1.asignaciones, rid), d);
      var db2 := db1.(equipos := SetEstado(db1.equipos, EquiposOf(db1.asignaciones, rid), d));
      ReservaUpdateValid(db2, rid, out.db.reservas[rid]);
      assert out.db == db2.(reservas := db2.reservas[rid := out.db.reservas[rid]]);
    }
  }

  // ---------------------------------------------------------------
  // gestionar_reserva_detalle: what the page offers
  // ---------------------------------------------------------------

  /** The racks listed as available: state 'Disponible' in any case, and at
      least as many available devices as the reservation still needs. */
  function RacksDisponibles(db: Db, rid: ReservaId): set<RackId>
    requires rid in db.reservas
  {
    set rk | rk in db.racks && IExact(db.racks[rk].estadoRack, Disponible)
                            && |Disponibles(db.estados, db.equipos, rk)| >= Needed(db, rid)
  }

  /** The supervisors listed: users whose role is exactly 'Supervisor' and
      who have no row for this reservation yet. */
  function SupervisoresDisponibles(db: Db, rid: ReservaId): set<UserId> {
    set u | u in db.catalog.usuarios && RolName(db.catalog, u) == Some(Supervisor)
                                     && !SupervisorPairExists(db.supervisores, SupervisorReserva(rid, u))
  }

  /** Picking a listed rack for a reservation that still needs devices
      passes the count check: the only failures left are the database's own
      (several 'En uso' rows, or a device already paired). */
  lemma ListedRackPassesCount(db: Db, s: Session, rid: ReservaId, rk: RackId)
    requires IsAdmin(s) && rid in db.reservas && rk in RacksDisponibles(db, rid) && rk != 0
    requires Needed(db, rid) > 0
    ensures var res := AsignarRack(db, s, rid, Some(rk)).res;
      res.Ok? || res == Err(IntegrityError) || res == Err(MultipleObjectsReturned)
  {
    var g := GetOrCreateEstado(db, EnUso);
  }

  /** Picking a listed supervisor always succeeds. */
  lemma ListedSupervisorAccepted(db: Db, s: Session, rid: ReservaId, u: UserId)
    requires IsAdmin(s) && rid in db.reservas && u in SupervisoresDisponibles(db, rid)
    ensures AsignarSupervisor(db, s, rid, Some(u)).res.Ok?
  {
  }
}
