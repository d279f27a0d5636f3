/** The tables of STR_Chromebook/Gestion_Equipos/models.py: device status
    labels, devices, reservations, and the supervisor, evidence and
    device-assignment rows of a reservation, gathered with the catalog and
    the racks into one database value `Db`. Its integrity (`Valid`) covers
    the foreign keys, the unique columns and the `unique_together` pairs;
    the on-delete rules are functions from one database to the next. */
module EquiposModels {
  import opened Base
  import opened Text
  import opened CoreModels

  type EstadoId = nat
  type EquipoId = nat
  type ReservaId = nat
  type AsigId = nat
  type SupervisorReservaId = nat
  type EvidenciaId = nat

  // Reservation status labels written by the handlers
  const Pendiente: string := "Pendiente"
  const Aprobada: string := "Aprobada"
  const Rechazada: string := "Rechazada"
  const Finalizada: string := "Finalizada"
  // Device status labels written by the handlers
  const Disponible: string := "Disponible"
  const EnUso: string := "En uso"
  const DadoDeBaja: string := "Dado de baja"
  // Role label of the users that may supervise
  const Supervisor: string := "Supervisor"

  /** Tb_EQUIPO. `estado` is the key of an EstadoEquipo row (PROTECT);
      `rack` is SET_NULL when its rack is deleted. */
  datatype Equipo = Equipo(id: EquipoId, nomEquipo: string, numSerie: string, modelo: string,
                           rack: Option<RackId>, estado: EstadoId)

  /** A calendar date of the proleptic Gregorian calendar. */
  datatype Date = Date(year: int, month: int, day: int)

  /** A time of day, in seconds after midnight. */
  type TimeOfDay = t: int | 0 <= t < 86400

  /** Tb_RESERVA. Timestamps are seconds on the same clock as "now". */
  datatype Reserva = Reserva(
    fechaUso: Date, horaInicio: TimeOfDay, horaFin: TimeOfDay, cantSolicitada: int,
    estadoReserva: string, responsableEntrega: string, telefonoContacto: string,
    motivoRechazo: Option<string>, observaciones: Option<string>,
    fechaEntrega: Option<int>, fechaDevolucion: Option<int>,
    usuario: UserId, asignatura: AsignaturaId, aula: AulaId, carrera: CarreraId)

  datatype SupervisorReserva = SupervisorReserva(reserva: ReservaId, supervisor: UserId)

  datatype EvidenciaReserva = EvidenciaReserva(tipo: string, descripcion: Option<string>, reserva: ReservaId)

  datatype AsignacionEquipo = AsignacionEquipo(reserva: ReservaId, equipo: EquipoId)

  /** The next value of each auto-increment primary key. */
  datatype Counters = Counters(estado: nat, equipo: nat, reserva: nat, asig: nat,
                               supervisor: nat, evidencia: nat)

  /** The whole database the handlers work on. Devices are kept in
      primary-key order. `Equipo` declares no `ordering`, so an unordered
      query may return them in any order; the model reads them in this one. */
  datatype Db = Db(
    catalog: Catalog,
    estados: map<EstadoId, string>,
    racks: map<RackId, Rack>,
    equipos: seq<Equipo>,
    reservas: map<ReservaId, Reserva>,
    asignaciones: map<AsigId, AsignacionEquipo>,
    supervisores: map<SupervisorReservaId, SupervisorReserva>,
    evidencias: map<EvidenciaId, EvidenciaReserva>,
    next: Counters)

  /** The choices of `tipo_evidencia`. */
  predicate IsTipoEvidencia(t: string) {
    t == "uso" || t == "devolucion"
  }

  /** A reservation as `form.save(commit=False)` builds it: the model
      defaults apply, so the status is 'Pendiente' and the administrative
      columns are empty. */
  function NewReserva(fechaUso: Date, horaInicio: TimeOfDay, horaFin: TimeOfDay, cant: int,
                      responsable: string, telefono: string, usuario: UserId,
                      asignatura: AsignaturaId, aula: AulaId, carrera: CarreraId): (r: Reserva)
    ensures r.estadoReserva == Pendiente
    ensures r.motivoRechazo.None? && r.observaciones.None? && r.fechaEntrega.None? && r.fechaDevolucion.None?
    ensures r.cantSolicitada == cant && r.usuario == usuario
  {
    Reserva(fechaUso, horaInicio, horaFin, cant, Pendiente, responsable, telefono,
            None, None, None, None, usuario, asignatura, aula, carrera)
  }

  // ---------------------------------------------------------------
  // Time
  // ---------------------------------------------------------------

  /** Days from 1970-01-01 to `d` (negative before it). */
  function DaysFromCivil(d: Date): int {
    var y := if d.month <= 2 then d.year - 1 else d.year;
    var era := y / 400;
    var yoe := y - era * 400;
    var mp := if d.month > 2 then d.month - 3 else d.month + 9;
    var doy := (153 * mp + 2) / 5 + d.day - 1;
    var doe := yoe * 365 + yoe / 4 - yoe / 100 + doy;
    era * 146097 + doe - 719468
  }

  /** `datetime.combine(fecha_uso, hora_inicio)` in seconds. */
  function Start(r: Reserva): int {
    DaysFromCivil(r.fechaUso) * 86400 + r.horaInicio
  }

  // ---------------------------------------------------------------
  // Devices
  // ---------------------------------------------------------------

  function Ids(eqs: seq<Equipo>): set<EquipoId> {
    set i | 0 <= i < |eqs| :: eqs[i].id
  }

  /** Primary keys strictly increase along the table. */
  predicate IdsIncreasing(eqs: seq<Equipo>) {
    forall i, j | 0 <= i < j < |eqs| :: eqs[i].id < eqs[j].id
  }

  /** `num_serie` is unique. */
  predicate SerialsUnique(eqs: seq<Equipo>) {
    forall a, b | a in eqs && b in eqs && a.numSerie == b.numSerie :: a == b
  }

  /** Some device other than `except` has this serial number. */
  predicate SerialTaken(eqs: seq<Equipo>, serial: string, except: Option<EquipoId>) {
    exists e | e in eqs :: e.numSerie == serial && Some(e.id) != except
  }

  /** Position of the device with primary key `id`. */
  function IndexOf(eqs: seq<Equipo>, id: EquipoId): (i: nat)
    requires id in Ids(eqs)
    ensures i < |eqs| && eqs[i].id == id
  {
    if eqs[0].id == id then 0
    else
      assert id in Ids(eqs[1..]) by {
        var k :| 0 <= k < |eqs| && eqs[k].id == id;
        assert eqs[1..][k - 1] == eqs[k];
      }
      1 + IndexOf(eqs[1..], id)
  }

  /** The batched `.update(id_estado_equipo=k)` on the devices with a key in `ids`. */
  function SetEstado(eqs: seq<Equipo>, ids: set<EquipoId>, k: EstadoId): (r: seq<Equipo>)
    ensures |r| == |eqs|
    ensures forall i | 0 <= i < |eqs| :: r[i] == if eqs[i].id in ids then eqs[i].(estado := k) else eqs[i]
  {
    seq(|eqs|, i requires 0 <= i < |eqs| => if eqs[i].id in ids then eqs[i].(estado := k) else eqs[i])
  }

  /** A table rewritten position by position, each device keeping its key
      and serial, keeps the table's own integrity and its key set. */
  lemma SameKeysAndSerials(eqs: seq<Equipo>, r: seq<Equipo>)
    requires |r| == |eqs|
    requires forall i | 0 <= i < |eqs| :: r[i].id == eqs[i].id && r[i].numSerie == eqs[i].numSerie
    requires IdsIncreasing(eqs) && SerialsUnique(eqs)
    ensures IdsIncreasing(r) && SerialsUnique(r) && Ids(r) == Ids(eqs)
  {
    forall a, b | a in r && b in r && a.numSerie == b.numSerie ensures a == b {
      var i :| 0 <= i < |r| && r[i] == a;
      var j :| 0 <= j < |r| && r[j] == b;
      assert eqs[i] in eqs && eqs[j] in eqs;
      assert eqs[i].numSerie == eqs[j].numSerie;
      assert eqs[i] == eqs[j];
      assert r[i].id == r[j].id;
    }
    assert Ids(r) == Ids(eqs) by {
      forall x | x in Ids(eqs) ensures x in Ids(r) {
        var i :| 0 <= i < |eqs| && eqs[i].id == x;
        assert r[i].id == x;
      }
    }
  }

  /** A status change keeps every key, serial and rack, so it keeps the
      device table's own integrity. */
  lemma SetEstadoKeeps(eqs: seq<Equipo>, ids: set<EquipoId>, k: EstadoId)
    requires IdsIncreasing(eqs) && SerialsUnique(eqs)
    ensures IdsIncreasing(SetEstado(eqs, ids, k)) && SerialsUnique(SetEstado(eqs, ids, k))
    ensures Ids(SetEstado(eqs, ids, k)) == Ids(eqs)
    ensures RackColumn(SetEstado(eqs, ids, k)) == RackColumn(eqs)
  {
    SameKeysAndSerials(eqs, SetEstado(eqs, ids, k));
  }

  /** The `id_rack` column. */
  function RackColumn(eqs: seq<Equipo>): (r: seq<Option<RackId>>)
    ensures |r| == |eqs| && forall i | 0 <= i < |eqs| :: r[i] == eqs[i].rack
  {
    seq(|eqs|, i requires 0 <= i < |eqs| => eqs[i].rack)
  }

  function Occurrences(s: seq<Option<RackId>>, x: Option<RackId>): nat {
    if s == [] then 0 else Occurrences(s[..|s| - 1], x) + (if s[|s| - 1] == x then 1 else 0)
  }

  /** `Equipo.objects.filter(id_rack=rack).count()`. */
  function CountInRack(eqs: seq<Equipo>, rk: RackId): nat {
    Occurrences(RackColumn(eqs), Some(rk))
  }

  lemma {:induction false} OccurrencesAppend(s: seq<Option<RackId>>, y: Option<RackId>, x: Option<RackId>)
    ensures Occurrences(s + [y], x) == Occurrences(s, x) + (if y == x then 1 else 0)
  {
    assert (s + [y])[..|s + [y]| - 1] == s;
  }

  /** Replacing one entry moves at most that entry's occurrence. */
  lemma {:induction false} OccurrencesUpdate(s: seq<Option<RackId>>, i: nat, y: Option<RackId>, x: Option<RackId>)
    requires i < |s|
    ensures Occurrences(s[i := y], x) + (if s[i] == x then 1 else 0)
            == Occurrences(s, x) + (if y == x then 1 else 0)
  {
    var t := s[i := y];
    if i == |s| - 1 {
      assert t[..|t| - 1] == s[..|s| - 1];
    } else {
      OccurrencesUpdate(s[..|s| - 1], i, y, x);
      assert t[..|t| - 1] == s[..|s| - 1][i := y];
    }
  }

  /** No rack holds more devices than its `capacidad_total`. */
  ghost predicate WithinCapacity(db: Db) {
    forall rk | rk in db.racks :: CountInRack(db.equipos, rk) <= db.racks[rk].capacidadTotal
  }

  // ---------------------------------------------------------------
  // Rows of a reservation
  // ---------------------------------------------------------------

  /** The assignment rows of reservation `rid`. */
  function RowsOf(asig: map<AsigId, AsignacionEquipo>, rid: ReservaId): set<AsigId> {
    set k | k in asig && asig[k].reserva == rid
  }

  /** The devices assigned to reservation `rid`. */
  function EquiposOf(asig: map<AsigId, AsignacionEquipo>, rid: ReservaId): set<EquipoId> {
    set k | k in asig && asig[k].reserva == rid :: asig[k].equipo
  }

  predicate PairExists(asig: map<AsigId, AsignacionEquipo>, a: AsignacionEquipo) {
    exists k | k in asig :: asig[k] == a
  }

  predicate SupervisorPairExists(sups: map<SupervisorReservaId, SupervisorReserva>, p: SupervisorReserva) {
    exists k | k in sups :: sups[k] == p
  }

  // ---------------------------------------------------------------
  // Integrity
  // ---------------------------------------------------------------

  ghost predicate EquiposOk(db: Db) {
    && IdsIncreasing(db.equipos) && SerialsUnique(db.equipos)
    && (forall e | e in db.equipos :: e.id < db.next.equipo)
    && (forall e | e in db.equipos :: e.estado in db.estados)
    && (forall e | e in db.equipos :: e.rack.Some? ==> e.rack.value in db.racks)
  }

  ghost predicate AsignacionesOk(db: Db) {
    && (forall k | k in db.asignaciones :: k < db.next.asig)
    && (forall k | k in db.asignaciones :: db.asignaciones[k].reserva in db.reservas)
    && (forall k | k in db.asignaciones :: db.asignaciones[k].equipo in Ids(db.equipos))
    && (forall a, b | a in db.asignaciones && b in db.asignaciones && a != b ::
          db.asignaciones[a] != db.asignaciones[b])
  }

  ghost predicate SupervisoresOk(db: Db) {
    && (forall k | k in db.supervisores :: k < db.next.supervisor)
    && (forall k | k in db.supervisores :: db.supervisores[k].reserva in db.reservas)
    && (forall k | k in db.supervisores :: db.supervisores[k].supervisor in db.catalog.usuarios)
    && (forall a, b | a in db.supervisores && b in db.supervisores && a != b ::
          db.supervisores[a] != db.supervisores[b])
  }

  ghost predicate EvidenciasOk(db: Db) {
    && (forall k | k in db.evidencias :: k < db.next.evidencia)
    && (forall k | k in db.evidencias :: db.evidencias[k].reserva in db.reservas)
    && (forall k | k in db.evidencias :: IsTipoEvidencia(db.evidencias[k].tipo))
  }

  ghost predicate KeysFresh(db: Db) {
    && (forall k | k in db.estados :: k < db.next.estado)
    && (forall k | k in db.reservas :: k < db.next.reserva)
  }

  ghost predicate Valid(db: Db) {
    EquiposOk(db) && AsignacionesOk(db) && SupervisoresOk(db) && EvidenciasOk(db) && KeysFresh(db)
  }

  /** The integrity of the device table alone implies that no two devices
      share a serial number or a primary key. */
  lemma SerialAndKeyUnique(db: Db, i: nat, j: nat)
    requires EquiposOk(db) && i < j < |db.equipos|
    ensures db.equipos[i].numSerie != db.equipos[j].numSerie
    ensures db.equipos[i].id != db.equipos[j].id
  {
    var a, b := db.equipos[i], db.equipos[j];
    assert a in db.equipos && b in db.equipos;
  }

  /** Both unique pairs hold: a (reservation, device) pair and a
      (reservation, supervisor) pair each occur in at most one row. */
  lemma PairsOccurOnce(db: Db, a: AsigId, b: AsigId, s: SupervisorReservaId, t: SupervisorReservaId)
    requires Valid(db)
    ensures a in db.asignaciones && b in db.asignaciones && db.asignaciones[a] == db.asignaciones[b] ==> a == b
    ensures s in db.supervisores && t in db.supervisores && db.supervisores[s] == db.supervisores[t] ==> s == t
  {
  }

  // Each part of the integrity survives a change that leaves the tables
  // it reads alone. These keep the preservation proofs below small.

  lemma EquiposOkFrame(db: Db, d: Db)
    requires EquiposOk(db)
    requires d.equipos == db.equipos && d.next.equipo == db.next.equipo
    requires db.estados.Keys <= d.estados.Keys && db.racks.Keys <= d.racks.Keys
    ensures EquiposOk(d)
  {
  }

  lemma AsignacionesOkFrame(db: Db, d: Db)
    requires AsignacionesOk(db)
    requires d.asignaciones == db.asignaciones && d.next.asig == db.next.asig
    requires db.reservas.Keys <= d.reservas.Keys && Ids(db.equipos) <= Ids(d.equipos)
    ensures AsignacionesOk(d)
  {
  }

  lemma SupervisoresOkFrame(db: Db, d: Db)
    requires SupervisoresOk(db)
    requires d.supervisores == db.supervisores && d.next.supervisor == db.next.supervisor
    requires db.reservas.Keys <= d.reservas.Keys && db.catalog.usuarios.Keys <= d.catalog.usuarios.Keys
    ensures SupervisoresOk(d)
  {
  }

  lemma EvidenciasOkFrame(db: Db, d: Db)
    requires EvidenciasOk(db)
    requires d.evidencias == db.evidencias && d.next.evidencia == db.next.evidencia
    requires db.reservas.Keys <= d.reservas.Keys
    ensures EvidenciasOk(d)
  {
  }

  lemma KeysFreshFrame(db: Db, d: Db)
    requires KeysFresh(db)
    requires d.estados.Keys <= db.estados.Keys && d.reservas.Keys <= db.reservas.Keys
    requires d.next.estado == db.next.estado && d.next.reserva == db.next.reserva
    ensures KeysFresh(d)
  {
  }

  lemma CapacityFrame(db: Db, d: Db)
    requires WithinCapacity(db) && d.equipos == db.equipos && d.racks == db.racks
    ensures WithinCapacity(d)
  {
  }

  /** Deleting a supervisor row keeps the database valid. */
  lemma SupervisorRemoveValid(db: Db, k: SupervisorReservaId)
    requires Valid(db)
    ensures Valid(db.(supervisores := db.supervisores - {k}))
    ensures WithinCapacity(db) ==> WithinCapacity(db.(supervisores := db.supervisores - {k}))
  {
    var d := db.(supervisores := db.supervisores - {k});
    EquiposOkFrame(db, d);
    AsignacionesOkFrame(db, d);
    EvidenciasOkFrame(db, d);
    KeysFreshFrame(db, d);
    assert SupervisoresOk(d);
    if WithinCapacity(db) { CapacityFrame(db, d); }
  }

  /** Deleting an evidence row keeps the database valid. */
  lemma EvidenciaRemoveValid(db: Db, k: EvidenciaId)
    requires Valid(db)
    ensures Valid(db.(evidencias := db.evidencias - {k}))
    ensures WithinCapacity(db) ==> WithinCapacity(db.(evidencias := db.evidencias - {k}))
  {
    var d := db.(evidencias := db.evidencias - {k});
    EquiposOkFrame(db, d);
    AsignacionesOkFrame(db, d);
    SupervisoresOkFrame(db, d);
    KeysFreshFrame(db, d);
    assert EvidenciasOk(d);
    if WithinCapacity(db) { CapacityFrame(db, d); }
  }

  /** An evidence row of a known type for an existing reservation, under
      the next key, keeps the database valid. */
  lemma EvidenciaInsertValid(db: Db, e: EvidenciaReserva)
    requires Valid(db) && e.reserva in db.reservas && IsTipoEvidencia(e.tipo)
    ensures Valid(db.(evidencias := db.evidencias[db.next.evidencia := e],
                      next := db.next.(evidencia := db.next.evidencia + 1)))
    ensures WithinCapacity(db) ==> WithinCapacity(db.(evidencias := db.evidencias[db.next.evidencia := e],
                                                      next := db.next.(evidencia := db.next.evidencia + 1)))
  {
    var d := db.(evidencias := db.evidencias[db.next.evidencia := e],
                 next := db.next.(evidencia := db.next.evidencia + 1));
    EquiposOkFrame(db, d);
    AsignacionesOkFrame(db, d);
    SupervisoresOkFrame(db, d);
    KeysFreshFrame(db, d);
    assert EvidenciasOk(d);
    if WithinCapacity(db) { CapacityFrame(db, d); }
  }

  /** A new supervisor pair for an existing reservation and user, under the
      next key, keeps the database valid. */
  lemma SupervisorInsertValid(db: Db, p: SupervisorReserva)
    requires Valid(db) && p.reserva in db.reservas && p.supervisor in db.catalog.usuarios
    requires !SupervisorPairExists(db.supervisores, p)
    ensures Valid(db.(supervisores := db.supervisores[db.next.supervisor := p],
                      next := db.next.(supervisor := db.next.supervisor + 1)))
    ensures WithinCapacity(db) ==> WithinCapacity(db.(supervisores := db.supervisores[db.next.supervisor := p],
                                                      next := db.next.(supervisor := db.next.supervisor + 1)))
  {
    var d := db.(supervisores := db.supervisores[db.next.supervisor := p],
                 next := db.next.(supervisor := db.next.supervisor + 1));
    EquiposOkFrame(db, d);
    AsignacionesOkFrame(db, d);
    EvidenciasOkFrame(db, d);
    KeysFreshFrame(db, d);
    forall a, b | a in d.supervisores && b in d.supervisores && a != b
      ensures d.supervisores[a] != d.supervisores[b]
    {
      if a == db.next.supervisor {
        assert !(b in db.supervisores && db.supervisores[b] == p);
      } else if b == db.next.supervisor {
        assert !(a in db.supervisores && db.supervisores[a] == p);
      }
    }
    assert SupervisoresOk(d);
    if WithinCapacity(db) { CapacityFrame(db, d); }
  }

  /** Keeping only some of the assignment rows keeps the database valid. */
  lemma AsignacionesShrinkValid(db: Db, m: map<AsigId, AsignacionEquipo>)
    requires Valid(db)
    requires forall k | k in m :: k in db.asignaciones && m[k] == db.asignaciones[k]
    ensures Valid(db.(asignaciones := m))
    ensures WithinCapacity(db) ==> WithinCapacity(db.(asignaciones := m))
  {
    var d := db.(asignaciones := m);
    EquiposOkFrame(db, d);
    SupervisoresOkFrame(db, d);
    EvidenciasOkFrame(db, d);
    KeysFreshFrame(db, d);
    assert AsignacionesOk(d);
    if WithinCapacity(db) { CapacityFrame(db, d); }
  }

  // ---------------------------------------------------------------
  // EstadoEquipo.objects.get_or_create(nom_estado=...)
  // ---------------------------------------------------------------

  function LabelKeys(estados: map<EstadoId, string>, name: string): set<EstadoId> {
    set k | k in estados && estados[k] == name
  }

  lemma SingletonMembers(s: set<EstadoId>, a: EstadoId, b: EstadoId)
    requires |s| == 1 && a in s && b in s
    ensures a == b
  {
    assert |s - {a}| == 0;
    assert b in s - {a} || b == a;
  }

  /** get_or_create: several rows with the label are an error; one row is
      found and nothing changes; with none a row is created under the next
      key. */
  ghost function GetOrCreateEstado(db: Db, name: string): (r: Result<(Db, EstadoId)>)
    ensures r.Err? <==> |LabelKeys(db.estados, name)| > 1
    ensures r.Err? ==> r.error == MultipleObjectsReturned
    ensures r.Ok? ==> r.value.1 in r.value.0.estados && r.value.0.estados[r.value.1] == name
    ensures r.Ok? ==> r.value.0 == db.(estados := r.value.0.estados, next := r.value.0.next)
                      && r.value.0.next == db.next.(estado := r.value.0.next.estado)
                      && db.estados.Keys <= r.value.0.estados.Keys
    ensures r.Ok? && LabelKeys(db.estados, name) != {} ==> r.value.0 == db
    ensures r.Ok? && LabelKeys(db.estados, name) == {} ==>
              && r.value.1 == db.next.estado
              && r.value.0 == db.(estados := db.estados[db.next.estado := name],
                                  next := db.next.(estado := db.next.estado + 1))
  {
    var ks := LabelKeys(db.estados, name);
    if |ks| > 1 then Err(MultipleObjectsReturned)
    else if |ks| == 1 then
      var k :| k in ks;
      Ok((db, k))
    else
      Ok((db.(estados := db.estados[db.next.estado := name],
              next := db.next.(estado := db.next.estado + 1)), db.next.estado))
  }

  /** get_or_create keeps the database valid, and a status change of some
      devices to the label it returns does too. */
  lemma GetOrCreateValid(db: Db, name: string)
    requires Valid(db) && GetOrCreateEstado(db, name).Ok?
    ensures Valid(GetOrCreateEstado(db, name).value.0)
    ensures GetOrCreateEstado(db, name).value.0.equipos == db.equipos
    ensures GetOrCreateEstado(db, name).value.0.racks == db.racks
  {
  }

  /** A device table rewritten position by position, each device keeping
      its key and serial and naming a known status and an existing rack,
      keeps the database valid, here with a possibly new rack table. */
  lemma RewriteValid(db: Db, r: seq<Equipo>, racks: map<RackId, Rack>)
    requires Valid(db) && |r| == |db.equipos|
    requires forall i | 0 <= i < |r| :: r[i].id == db.equipos[i].id && r[i].numSerie == db.equipos[i].numSerie
    requires forall i | 0 <= i < |r| :: r[i].estado in db.estados && (r[i].rack.Some? ==> r[i].rack.value in racks)
    ensures Valid(db.(equipos := r, racks := racks))
  {
    SameKeysAndSerials(db.equipos, r);
    var d := db.(equipos := r, racks := racks);
    forall e | e in r ensures e.id < d.next.equipo && e.estado in d.estados && (e.rack.Some? ==> e.rack.value in d.racks) {
      var i :| 0 <= i < |r| && r[i] == e;
      assert db.equipos[i] in db.equipos;
    }
    assert EquiposOk(d);
    assert AsignacionesOk(d);
    assert SupervisoresOk(d) && EvidenciasOk(d) && KeysFresh(d);
  }

  lemma SetEstadoValid(db: Db, ids: set<EquipoId>, k: EstadoId)
    requires Valid(db) && k in db.estados
    ensures Valid(db.(equipos := SetEstado(db.equipos, ids, k)))
    ensures WithinCapacity(db) ==> WithinCapacity(db.(equipos := SetEstado(db.equipos, ids, k)))
  {
    var eqs := db.equipos;
    var r := SetEstado(eqs, ids, k);
    forall i | 0 <= i < |r| ensures r[i].estado in db.estados && (r[i].rack.Some? ==> r[i].rack.value in db.racks) {
      assert eqs[i] in eqs;
    }
    RewriteValid(db, r, db.racks);
    assert db.(equipos := r, racks := db.racks) == db.(equipos := r);
    SetEstadoKeeps(eqs, ids, k);
    assert forall rk :: CountInRack(r, rk) == CountInRack(eqs, rk);
  }

  // ---------------------------------------------------------------
  // Writes the handlers make
  // ---------------------------------------------------------------

  /** Overwriting an existing reservation keeps the database valid. */
  lemma ReservaUpdateValid(db: Db, rid: ReservaId, r: Reserva)
    requires Valid(db) && rid in db.reservas
    ensures Valid(db.(reservas := db.reservas[rid := r]))
    ensures WithinCapacity(db) ==> WithinCapacity(db.(reservas := db.reservas[rid := r]))
  {
    var d := db.(reservas := db.reservas[rid := r]);
    assert d.reservas.Keys == db.reservas.Keys;
    assert AsignacionesOk(d) && SupervisoresOk(d) && EvidenciasOk(d);
  }

  /** Inserting a reservation under the next key keeps the database valid. */
  lemma ReservaInsertValid(db: Db, r: Reserva)
    requires Valid(db)
    ensures Valid(db.(reservas := db.reservas[db.next.reserva := r], next := db.next.(reserva := db.next.reserva + 1)))
  {
    var d := db.(reservas := db.reservas[db.next.reserva := r], next := db.next.(reserva := db.next.reserva + 1));
    assert db.reservas.Keys <= d.reservas.Keys;
    assert AsignacionesOk(d) && SupervisoresOk(d) && EvidenciasOk(d) && KeysFresh(d);
  }

  /** A new device table that passes the device checks, keeps every old key
      and does not lower the key counter keeps the database valid. */
  lemma EquiposChangeValid(db: Db, eqs: seq<Equipo>, nextEquipo: nat)
    requires Valid(db)
    requires EquiposOk(db.(equipos := eqs, next := db.next.(equipo := nextEquipo)))
    requires Ids(db.equipos) <= Ids(eqs)
    ensures Valid(db.(equipos := eqs, next := db.next.(equipo := nextEquipo)))
  {
    var d := db.(equipos := eqs, next := db.next.(equipo := nextEquipo));
    assert AsignacionesOk(d) && SupervisoresOk(d) && EvidenciasOk(d) && KeysFresh(d);
  }

  /** A device appended under the next key, with an unused serial and a
      known status and rack, passes the device checks. */
  lemma AppendOk(db: Db, e: Equipo)
    requires EquiposOk(db) && e.id == db.next.equipo
    requires forall x | x in db.equipos :: x.numSerie != e.numSerie
    requires e.estado in db.estados && (e.rack.Some? ==> e.rack.value in db.racks)
    ensures EquiposOk(db.(equipos := db.equipos + [e], next := db.next.(equipo := e.id + 1)))
    ensures Ids(db.equipos) <= Ids(db.equipos + [e])
  {
    var r := db.equipos + [e];
    forall a, b | a in r && b in r && a.numSerie == b.numSerie ensures a == b {
      assert a in db.equipos || a == e;
      assert b in db.equipos || b == e;
    }
    forall i, j | 0 <= i < j < |r| ensures r[i].id < r[j].id {
      assert r[i] in db.equipos;
      if j < |db.equipos| { assert r[j] == db.equipos[j]; }
    }
    forall x | x in Ids(db.equipos) ensures x in Ids(r) {
      var i :| 0 <= i < |db.equipos| && db.equipos[i].id == x;
      assert r[i].id == x;
    }
  }

  /** Two positions of an increasing table with the same key are one. */
  lemma OthersDiffer(eqs: seq<Equipo>, i: nat)
    requires IdsIncreasing(eqs) && i < |eqs|
    ensures forall q | 0 <= q < |eqs| && q != i :: eqs[q].id != eqs[i].id
  {
  }

  /** A device replaced in place, keeping its key, with a serial no other
      device holds and a known status and rack, passes the device checks. */
  lemma ReplaceOk(db: Db, i: nat, e: Equipo)
    requires EquiposOk(db) && i < |db.equipos| && e.id == db.equipos[i].id
    requires forall q | 0 <= q < |db.equipos| && q != i :: db.equipos[q].numSerie != e.numSerie
    requires e.estado in db.estados && (e.rack.Some? ==> e.rack.value in db.racks)
    ensures EquiposOk(db.(equipos := db.equipos[i := e]))
    ensures Ids(db.equipos) <= Ids(db.equipos[i := e])
  {
    var eqs := db.equipos;
    var r := eqs[i := e];
    ReplaceSerials(eqs, i, e);
    ReplaceIncreasing(eqs, i, e);
    assert eqs[i] in eqs;
    forall x | x in r ensures x.id < db.next.equipo && x.estado in db.estados
                              && (x.rack.Some? ==> x.rack.value in db.racks) {
      var p :| 0 <= p < |r| && r[p] == x;
      assert eqs[p] in eqs;
    }
  }

  /** Replacing one device by one whose serial no other device holds keeps
      serial numbers unique. */
  lemma ReplaceSerials(eqs: seq<Equipo>, i: nat, e: Equipo)
    requires SerialsUnique(eqs) && i < |eqs|
    requires forall q | 0 <= q < |eqs| && q != i :: eqs[q].numSerie != e.numSerie
    ensures SerialsUnique(eqs[i := e])
  {
    var r := eqs[i := e];
    forall a: Equipo, b: Equipo | a in r && b in r && a.numSerie == b.numSerie ensures a == b {
      var p :| 0 <= p < |r| && r[p] == a;
      var q :| 0 <= q < |r| && r[q] == b;
      if p != i && q != i {
        assert eqs[p] in eqs && eqs[q] in eqs;
      }
    }
  }

  /** Replacing one device by one with the same key keeps the keys
      increasing and loses none. */
  lemma ReplaceIncreasing(eqs: seq<Equipo>, i: nat, e: Equipo)
    requires IdsIncreasing(eqs) && i < |eqs| && e.id == eqs[i].id
    ensures IdsIncreasing(eqs[i := e]) && Ids(eqs) <= Ids(eqs[i := e])
  {
    var r := eqs[i := e];
    forall p, q | 0 <= p < q < |r| ensures r[p].id < r[q].id {
      assert eqs[p].id < eqs[q].id;
    }
    forall x | x in Ids(eqs) ensures x in Ids(r) {
      var p :| 0 <= p < |eqs| && eqs[p].id == x;
      assert r[p].id == x;
    }
  }

  /** Appending a device into a rack that is not full, or into none, keeps
      every rack within its capacity. */
  lemma AppendCapacity(db: Db, e: Equipo)
    requires WithinCapacity(db)
    requires e.rack.Some? && e.rack.value in db.racks ==>
               CountInRack(db.equipos, e.rack.value) < db.racks[e.rack.value].capacidadTotal
    ensures WithinCapacity(db.(equipos := db.equipos + [e]))
  {
    assert RackColumn(db.equipos + [e]) == RackColumn(db.equipos) + [e.rack];
    forall rk | rk in db.racks
      ensures CountInRack(db.equipos + [e], rk) == CountInRack(db.equipos, rk) + (if e.rack == Some(rk) then 1 else 0)
    {
      OccurrencesAppend(RackColumn(db.equipos), e.rack, Some(rk));
    }
  }

  /** Replacing a device keeps every rack within its capacity when the
      device stays in its rack, leaves for none, or moves into a rack that
      is not full. */
  lemma ReplaceCapacity(db: Db, i: nat, e: Equipo)
    requires WithinCapacity(db) && i < |db.equipos|
    requires e.rack.Some? && e.rack != db.equipos[i].rack && e.rack.value in db.racks ==>
               CountInRack(db.equipos, e.rack.value) < db.racks[e.rack.value].capacidadTotal
    ensures WithinCapacity(db.(equipos := db.equipos[i := e]))
  {
    assert RackColumn(db.equipos[i := e]) == RackColumn(db.equipos)[i := e.rack];
    forall rk | rk in db.racks
      ensures CountInRack(db.equipos[i := e], rk) <= db.racks[rk].capacidadTotal
    {
      OccurrencesUpdate(RackColumn(db.equipos), i, e.rack, Some(rk));
    }
  }

  // ---------------------------------------------------------------
  // On-delete rules
  // ---------------------------------------------------------------

  /** Deleting a reservation deletes its supervisor, evidence and
      assignment rows (CASCADE) and nothing else. */
  function DeleteReserva(db: Db, rid: ReservaId): (r: Result<Db>)
    ensures r.Err? <==> rid !in db.reservas
    ensures r.Ok? ==>
      && r.value.reservas.Keys == db.reservas.Keys - {rid}
      && (forall k | k in r.value.reservas :: r.value.reservas[k] == db.reservas[k])
      && (forall k :: k in r.value.asignaciones <==> k in db.asignaciones && db.asignaciones[k].reserva != rid)
      && (forall k :: k in r.value.supervisores <==> k in db.supervisores && db.supervisores[k].reserva != rid)
      && (forall k :: k in r.value.evidencias <==> k in db.evidencias && db.evidencias[k].reserva != rid)
      && (forall k | k in r.value.asignaciones :: r.value.asignaciones[k] == db.asignaciones[k])
      && (forall k | k in r.value.supervisores :: r.value.supervisores[k] == db.supervisores[k])
      && (forall k | k in r.value.evidencias :: r.value.evidencias[k] == db.evidencias[k])
      && r.value == db.(reservas := r.value.reservas, asignaciones := r.value.asignaciones,
                        supervisores := r.value.supervisores, evidencias := r.value.evidencias)
  {
    if rid !in db.reservas then Err(NotFound)
    else Ok(db.(reservas := db.reservas - {rid},
                asignaciones := map k | k in db.asignaciones && db.asignaciones[k].reserva != rid :: db.asignaciones[k],
                supervisores := map k | k in db.supervisores && db.supervisores[k].reserva != rid :: db.supervisores[k],
                evidencias := map k | k in db.evidencias && db.evidencias[k].reserva != rid :: db.evidencias[k]))
  }

  lemma DeleteReservaValid(db: Db, rid: ReservaId)
    requires Valid(db) && DeleteReserva(db, rid).Ok?
    ensures Valid(DeleteReserva(db, rid).value)
  {
    var d := DeleteReserva(db, rid).value;
    assert d.equipos == db.equipos && d.estados == db.estados && d.racks == db.racks;
    assert d.catalog == db.catalog && d.next == db.next;
    assert EquiposOk(d);
    forall k | k in d.asignaciones
      ensures k < d.next.asig && d.asignaciones[k].reserva in d.reservas
      ensures d.asignaciones[k].equipo in Ids(d.equipos)
    {
      assert d.asignaciones[k] == db.asignaciones[k];
    }
    assert AsignacionesOk(d);
    forall k | k in d.supervisores
      ensures k < d.next.supervisor && d.supervisores[k].reserva in d.reservas
      ensures d.supervisores[k].supervisor in d.catalog.usuarios
    {
      assert d.supervisores[k] == db.supervisores[k];
    }
    assert SupervisoresOk(d);
    forall k | k in d.evidencias
      ensures k < d.next.evidencia && d.evidencias[k].reserva in d.reservas
      ensures IsTipoEvidencia(d.evidencias[k].tipo)
    {
      assert d.evidencias[k] == db.evidencias[k];
    }
    assert EvidenciasOk(d);
  }

  /** The device table without the device `id`, in the same order. */
  function Without(eqs: seq<Equipo>, id: EquipoId): (r: seq<Equipo>)
    ensures forall e :: e in r <==> e in eqs && e.id != id
  {
    if eqs == [] then []
    else
      var last := eqs[|eqs| - 1];
      var w := Without(eqs[..|eqs| - 1], id);
      assert forall e :: e in eqs <==> e in eqs[..|eqs| - 1] || e == last by {
        assert eqs == eqs[..|eqs| - 1] + [last];
      }
      if last.id == id then w else w + [last]
  }

  lemma {:induction false} WithoutIncreasing(eqs: seq<Equipo>, id: EquipoId)
    requires IdsIncreasing(eqs)
    ensures IdsIncreasing(Without(eqs, id))
  {
    if eqs != [] {
      var p := eqs[..|eqs| - 1];
      var last := eqs[|eqs| - 1];
      WithoutIncreasing(p, id);
      var w := Without(p, id);
      if last.id != id {
        forall e | e in w ensures e.id < last.id {
          var i :| 0 <= i < |p| && p[i] == e;
        }
        var r := w + [last];
        forall i, j | 0 <= i < j < |r| ensures r[i].id < r[j].id {
          if j < |w| { assert r[i] == w[i] && r[j] == w[j]; }
          else { assert r[i] == w[i] && w[i] in w; }
        }
      }
    }
  }

  /** Deleting a device deletes its assignment rows (CASCADE) and nothing else. */
  function DeleteEquipo(db: Db, id: EquipoId): (r: Result<Db>)
    ensures r.Err? <==> id !in Ids(db.equipos)
    ensures r.Ok? ==>
      && (forall e :: e in r.value.equipos <==> e in db.equipos && e.id != id)
      && (forall k :: k in r.value.asignaciones <==> k in db.asignaciones && db.asignaciones[k].equipo != id)
      && (forall k | k in r.value.asignaciones :: r.value.asignaciones[k] == db.asignaciones[k])
      && r.value == db.(equipos := r.value.equipos, asignaciones := r.value.asignaciones)
  {
    if id !in Ids(db.equipos) then Err(NotFound)
    else Ok(db.(equipos := Without(db.equipos, id),
                asignaciones := map k | k in db.asignaciones && db.asignaciones[k].equipo != id :: db.asignaciones[k]))
  }

  lemma DeleteEquipoValid(db: Db, id: EquipoId)
    requires Valid(db) && DeleteEquipo(db, id).Ok?
    ensures Valid(DeleteEquipo(db, id).value)
  {
    var d := DeleteEquipo(db, id).value;
    WithoutIncreasing(db.equipos, id);
    forall k | k in d.asignaciones ensures d.asignaciones[k].equipo in Ids(d.equipos) {
      var x := db.asignaciones[k].equipo;
      var i :| 0 <= i < |db.equipos| && db.equipos[i].id == x;
      assert db.equipos[i] in d.equipos;
      var j :| 0 <= j < |d.equipos| && d.equipos[j] == db.equipos[i];
    }
  }

  /** The devices with their rack `rk` set to none. */
  function ClearRack(eqs: seq<Equipo>, rk: RackId): (r: seq<Equipo>)
    ensures |r| == |eqs|
    ensures forall i | 0 <= i < |eqs| ::
              r[i] == if eqs[i].rack == Some(rk) then eqs[i].(rack := None) else eqs[i]
  {
    seq(|eqs|, i requires 0 <= i < |eqs| => if eqs[i].rack == Some(rk) then eqs[i].(rack := None) else eqs[i])
  }

  lemma ClearRackKeeps(eqs: seq<Equipo>, rk: RackId)
    requires IdsIncreasing(eqs) && SerialsUnique(eqs)
    ensures IdsIncreasing(ClearRack(eqs, rk)) && SerialsUnique(ClearRack(eqs, rk))
    ensures Ids(ClearRack(eqs, rk)) == Ids(eqs)
  {
    SameKeysAndSerials(eqs, ClearRack(eqs, rk));
  }

  /** Deleting a rack keeps its devices, with no rack (SET_NULL). */
  function DeleteRack(db: Db, rk: RackId): (r: Result<Db>)
    ensures r.Err? <==> rk !in db.racks
    ensures r.Ok? ==>
      && r.value.racks.Keys == db.racks.Keys - {rk}
      && (forall k | k in r.value.racks :: r.value.racks[k] == db.racks[k])
      && r.value.equipos == ClearRack(db.equipos, rk)
      && r.value == db.(racks := r.value.racks, equipos := r.value.equipos)
  {
    if rk !in db.racks then Err(NotFound)
    else Ok(db.(racks := db.racks - {rk}, equipos := ClearRack(db.equipos, rk)))
  }

  lemma DeleteRackValid(db: Db, rk: RackId)
    requires Valid(db) && DeleteRack(db, rk).Ok?
    ensures Valid(DeleteRack(db, rk).value)
  {
    var d := DeleteRack(db, rk).value;
    var eqs := db.equipos;
    forall i | 0 <= i < |d.equipos|
      ensures d.equipos[i].estado in db.estados && (d.equipos[i].rack.Some? ==> d.equipos[i].rack.value in d.racks)
    {
      assert eqs[i] in eqs;
    }
    RewriteValid(db, d.equipos, d.racks);
  }

  predicate EstadoInUse(eqs: seq<Equipo>, k: EstadoId) {
    exists e | e in eqs :: e.estado == k
  }

  /** Deleting a status label: PROTECT while any device has it. */
  function DeleteEstado(db: Db, k: EstadoId): (r: Result<Db>)
    ensures r.Err? <==> k !in db.estados || EstadoInUse(db.equipos, k)
    ensures r.Err? && k in db.estados ==> r.error == ProtectedReference
    ensures r.Ok? ==> r.value.estados.Keys == db.estados.Keys - {k}
                      && r.value == db.(estados := r.value.estados)
    ensures r.Ok? && Valid(db) ==> Valid(r.value)
  {
    if k !in db.estados then Err(NotFound)
    else if EstadoInUse(db.equipos, k) then Err(ProtectedReference)
    else Ok(db.(estados := db.estados - {k}))
  }
}
