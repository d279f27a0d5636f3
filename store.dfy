/** The lending store: one object holding every table the handlers of
    STR_Chromebook/Gestion_Equipos/views/gestion.py and views/core.py read
    and write. Each handler is a method that checks, then writes the
    fields, and answers with a result; its contract ties the new state and
    the answer to the handler's specification in GestionViews or CoreViews.
    The store starts valid, and the lemma named after each specification
    with the suffix `Valid` shows that the handler keeps it valid and keeps
    every rack within its capacity. */
module Store {
  import opened Base
  import opened Text
  import opened CoreModels
  import opened EquiposModels
  import opened EquiposForms
  import opened GestionViews
  import opened CoreViews

  /** One more device adds one row, under the next key. */
  lemma NewRowsStep(start: nat, rid: ReservaId, cands: seq<Equipo>, j: nat)
    requires j < |cands|
    ensures NewRows(start, rid, cands[..j + 1]) == NewRows(start, rid, cands[..j])[start + j := AsignacionEquipo(rid, cands[j].id)]
  {
    var c := cands[..j + 1];
    assert c[..|c| - 1] == cands[..j];
    assert c[|c| - 1] == cands[j];
  }

  class LendingStore {
    var catalog: Catalog
    var estados: map<EstadoId, string>
    var racks: map<RackId, Rack>
    var equipos: seq<Equipo>
    var reservas: map<ReservaId, Reserva>
    var asignaciones: map<AsigId, AsignacionEquipo>
    var supervisores: map<SupervisorReservaId, SupervisorReserva>
    var evidencias: map<EvidenciaId, EvidenciaReserva>
    var next: Counters

    /** The tables as one value. */
    function State(): Db
      reads this
    {
      Db(catalog, estados, racks, equipos, reservas, asignaciones, supervisores, evidencias, next)
    }

    /** An empty lending database over the given catalog; every key counter
        starts at 1. */
    constructor (cat: Catalog)
      ensures State() == Db(cat, map[], map[], [], map[], map[], map[], map[], Counters(1, 1, 1, 1, 1, 1))
      ensures EquiposModels.Valid(State()) && WithinCapacity(State())
    {
      catalog := cat;
      estados := map[];
      racks := map[];
      equipos := [];
      reservas := map[];
      asignaciones := map[];
      supervisores := map[];
      evidencias := map[];
      next := Counters(1, 1, 1, 1, 1, 1);
    }

    // ---------------------------------------------------------------
    // Queries and batched writes the handlers share
    // ---------------------------------------------------------------

    /** `EstadoEquipo.objects.get_or_create(nom_estado=name)`. */
    method GetOrCreateEstado(name: string) returns (r: Result<EstadoId>)
      modifies this
      ensures var g := EquiposModels.GetOrCreateEstado(old(State()), name);
        && (g.Err? ==> r == Err(g.error) && State() == old(State()))
        && (g.Ok? ==> r == Ok(g.value.1) && State() == g.value.0)
    {
      ghost var g := EquiposModels.GetOrCreateEstado(State(), name);
      var ks := LabelKeys(estados, name);
      if |ks| > 1 {
        return Err(MultipleObjectsReturned);
      }
      if |ks| == 1 {
        var k :| k in ks;
        SingletonMembers(ks, k, g.value.1);
        return Ok(k);
      }
      var k := next.estado;
      estados := estados[k := name];
      next := next.(estado := k + 1);
      r := Ok(k);
    }

    /** `Equipo.objects.filter(id_equipo__in=ids).update(id_estado_equipo=k)`,
        one row at a time. */
    method BulkSetEstado(ids: set<EquipoId>, k: EstadoId)
      modifies this
      ensures State() == old(State()).(equipos := SetEstado(old(equipos), ids, k))
    {
      var i := 0;
      while i < |equipos|
        invariant 0 <= i <= |equipos| == |old(equipos)|
        invariant forall j | 0 <= j < |equipos| ::
                    equipos[j] == if j < i && old(equipos)[j].id in ids then old(equipos)[j].(estado := k) else old(equipos)[j]
        invariant State() == old(State()).(equipos := equipos)
      {
        if equipos[i].id in ids {
          equipos := equipos[i := equipos[i].(estado := k)];
        }
        i := i + 1;
      }
    }

    /** The first `n` devices of rack `rk` whose status reads 'Disponible'
        in any case, in table order. */
    method SelectDisponibles(rk: RackId, n: nat) returns (sel: seq<Equipo>)
      ensures sel == Take(Disponibles(estados, equipos, rk), n)
    {
      sel := [];
      var i := 0;
      while i < |equipos|
        invariant 0 <= i <= |equipos|
        invariant sel == Take(Disponibles(estados, equipos[..i], rk), n)
      {
        var e := equipos[i];
        assert equipos[..i + 1][..i] == equipos[..i];
        if |sel| < n && e.rack == Some(rk) && EsDisponible(estados, e) {
          sel := sel + [e];
        }
        i := i + 1;
      }
      assert equipos[..i] == equipos;
    }

    // ---------------------------------------------------------------
    // api_asignar_rack, api_desasignar_todos_equipos, api_desasignar_equipo
    // ---------------------------------------------------------------

    method AsignarRack(s: Session, rid: ReservaId, rackId: Option<nat>) returns (r: Result<nat>)
      modifies this
      ensures State() == GestionViews.AsignarRack(old(State()), s, rid, rackId).db
      ensures r == GestionViews.AsignarRack(old(State()), s, rid, rackId).res
    {
      if !IsAdmin(s) {
        return Err(AccessDenied);
      }
      if rid !in reservas {
        return Err(NotFound);
      }
      if rackId.None? || rackId.value == 0 {
        return Err(RackNotSelected);
      }
      if rackId.value !in racks {
        return Err(NotFound);
      }
      var asignados := |RowsOf(asignaciones, rid)|;
      var necesarios := reservas[rid].cantSolicitada - asignados;
      if necesarios <= 0 {
        return Err(AlreadyFullyAssigned);
      }
      var paraAsignar := SelectDisponibles(rackId.value, necesarios);
      if |paraAsignar| < necesarios {
        return Err(NotEnoughAvailable(|paraAsignar|, necesarios));
      }
      r := CommitRows(rid, paraAsignar);
    }

    /** The loop that builds one unsaved row per picked device. */
    static method BuildRows(start: nat, rid: ReservaId, cands: seq<Equipo>) returns (nuevas: map<AsigId, AsignacionEquipo>)
      ensures nuevas == NewRows(start, rid, cands)
    {
      nuevas := map[];
      var j := 0;
      while j < |cands|
        invariant 0 <= j <= |cands|
        invariant nuevas == NewRows(start, rid, cands[..j])
      {
        NewRowsStep(start, rid, cands, j);
        nuevas := nuevas[start + j := AsignacionEquipo(rid, cands[j].id)];
        j := j + 1;
      }
      assert cands[..j] == cands;
    }

    /** get_or_create of 'En uso', `bulk_create` of the rows (refused as a
        whole when a pair exists) and `bulk_update` of the devices. */
    method CommitRows(rid: ReservaId, cands: seq<Equipo>) returns (r: Result<nat>)
      modifies this
      ensures State() == GestionViews.Commit(old(State()), rid, cands).db
      ensures r == GestionViews.Commit(old(State()), rid, cands).res
    {
      var enUso := GetOrCreateEstado(EnUso);
      if enUso.Err? {
        return Err(enUso.error);
      }
      var nuevas := BuildRows(next.asig, rid, cands);
      if AnyPaired(asignaciones, rid, cands) {
        return Err(IntegrityError);
      }
      asignaciones := asignaciones + nuevas;
      next := next.(asig := next.asig + |cands|);
      BulkSetEstado(Ids(cands), enUso.value);
      r := Ok(|cands|);
    }

    method DesasignarTodos(s: Session, rid: ReservaId) returns (r: Result<()>)
      modifies this
      ensures State() == GestionViews.DesasignarTodos(old(State()), s, rid).db
      ensures r == GestionViews.DesasignarTodos(old(State()), s, rid).res
    {
      if !IsAdmin(s) {
        return Err(AccessDenied);
      }
      if rid !in reservas {
        return Err(NotFound);
      }
      if RowsOf(asignaciones, rid) == {} {
        return Err(NothingToUnassign);
      }
      var disponible := GetOrCreateEstado(Disponible);
      if disponible.Err? {
        return Err(disponible.error);
      }
      var equipoIds := EquiposOf(asignaciones, rid);
      asignaciones := RowsNotOf(asignaciones, rid);
      BulkSetEstado(equipoIds, disponible.value);
      r := Ok(());
    }

    /** Not atomic in the source, but its writes cannot fail once the
        label is found or created. */
    method DesasignarEquipo(s: Session, aid: AsigId) returns (r: Result<()>)
      modifies this
      ensures State() == GestionViews.DesasignarEquipo(old(State()), s, aid).db
      ensures r == GestionViews.DesasignarEquipo(old(State()), s, aid).res
    {
      if !IsAdmin(s) {
        return Err(AccessDenied);
      }
      if aid !in asignaciones {
        return Err(NotFound);
      }
      var equipo := asignaciones[aid].equipo;
      var disponible := GetOrCreateEstado(Disponible);
      if disponible.Err? {
        return Err(disponible.error);
      }
      BulkSetEstado({equipo}, disponible.value);
      asignaciones := asignaciones - {aid};
      r := Ok(());
    }

    // ---------------------------------------------------------------
    // Supervisors and evidence
    // ---------------------------------------------------------------

    method AsignarSupervisor(s: Session, rid: ReservaId, sid: Option<nat>) returns (r: Result<SupervisorReservaId>)
      modifies this
      ensures State() == GestionViews.AsignarSupervisor(old(State()), s, rid, sid).db
      ensures r == GestionViews.AsignarSupervisor(old(State()), s, rid, sid).res
    {
      if !IsAdmin(s) {
        return Err(AccessDenied);
      }
      if rid !in reservas {
        return Err(NotFound);
      }
      if sid.None? || sid.value !in catalog.usuarios {
        return Err(NotFound);
      }
      if RolName(catalog, sid.value) != Some(Supervisor) {
        return Err(NotASupervisor);
      }
      var fila := SupervisorReserva(rid, sid.value);
      if SupervisorPairExists(supervisores, fila) {
        return Err(SupervisorAlreadyAssigned);
      }
      var k := next.supervisor;
      supervisores := supervisores[k := fila];
      next := next.(supervisor := k + 1);
      r := Ok(k);
    }

    method DesasignarSupervisor(s: Session, k: SupervisorReservaId) returns (r: Result<()>)
      modifies this
      ensures State() == GestionViews.DesasignarSupervisor(old(State()), s, k).db
      ensures r == GestionViews.DesasignarSupervisor(old(State()), s, k).res
    {
      if !IsAdmin(s) {
        return Err(AccessDenied);
      }
      if k !in supervisores {
        return Err(NotFound);
      }
      supervisores := supervisores - {k};
      r := Ok(());
    }

    method SubirEvidencia(s: Session, rid: ReservaId, tipo: string, descripcion: Option<string>) returns (r: Result<EvidenciaId>)
      modifies this
      ensures State() == GestionViews.SubirEvidencia(old(State()), s, rid, tipo, descripcion).db
      ensures r == GestionViews.SubirEvidencia(old(State()), s, rid, tipo, descripcion).res
    {
      if !LoggedIn(s) || !IsAdmin(s) {
        return Err(AccessDenied);
      }
      if s.usuarioId.value !in catalog.usuarios || rid !in reservas {
        return Err(NotFound);
      }
      if !IsTipoEvidencia(tipo) {
        return Err(InvalidForm);
      }
      var k := next.evidencia;
      evidencias := evidencias[k := EvidenciaReserva(tipo, descripcion, rid)];
      next := next.(evidencia := k + 1);
      r := Ok(k);
    }

    /** Only the record goes; the photo file is not modelled. */
    method EliminarEvidencia(s: Session, k: EvidenciaId) returns (r: Result<()>)
      modifies this
      ensures State() == GestionViews.EliminarEvidencia(old(State()), s, k).db
      ensures r == GestionViews.EliminarEvidencia(old(State()), s, k).res
    {
      if !IsAdmin(s) {
        return Err(AccessDenied);
      }
      if k !in evidencias {
        return Err(NotFound);
      }
      evidencias := evidencias - {k};
      r := Ok(());
    }

    // ---------------------------------------------------------------
    // api_actualizar_gestion, api_finalizar_reserva
    // ---------------------------------------------------------------

    method ActualizarGestion(s: Session, rid: ReservaId, observaciones: Option<Option<string>>,
                             entrega: TimestampInput, devolucion: TimestampInput) returns (r: Result<()>)
      modifies this
      ensures State() == GestionViews.ActualizarGestion(old(State()), s, rid, observaciones, entrega, devolucion).db
      ensures r == GestionViews.ActualizarGestion(old(State()), s, rid, observaciones, entrega, devolucion).res
    {
      if !IsAdmin(s) {
        return Err(AccessDenied);
      }
      if rid !in reservas {
        return Err(NotFound);
      }
      var reserva := reservas[rid];
      if observaciones.Some? {
        reserva := reserva.(observaciones := observaciones.value);
      }
      match entrega {
        case Unparseable => return Err(InvalidTimestamp);
        case Parsed(t) => reserva := reserva.(fechaEntrega := Some(t));
        case NoValue => reserva := reserva.(fechaEntrega := None);
      }
      match devolucion {
        case Unparseable => return Err(InvalidTimestamp);
        case Parsed(t) => reserva := reserva.(fechaDevolucion := Some(t));
        case NoValue => reserva := reserva.(fechaDevolucion := None);
      }
      reservas := reservas[rid := reserva];
      r := Ok(());
    }

    method FinalizarReserva(s: Session, rid: ReservaId, now: int) returns (r: Result<()>)
      modifies this
      ensures State() == GestionViews.FinalizarReserva(old(State()), s, rid, now).db
      ensures r == GestionViews.FinalizarReserva(old(State()), s, rid, now).res
    {
      if !IsAdmin(s) {
        return Err(AccessDenied);
      }
      if rid !in reservas {
        return Err(NotFound);
      }
      var reserva := reservas[rid];
      if reserva.estadoReserva != Aprobada {
        return Err(OnlyApprovedCanBeFinalized(reserva.estadoReserva));
      }
      var equipoIds := EquiposOf(asignaciones, rid);
      var disponible := GetOrCreateEstado(Disponible);
      if disponible.Err? {
        return Err(disponible.error);
      }
      BulkSetEstado(equipoIds, disponible.value);
      reserva := reserva.(estadoReserva := Finalizada);
      if reserva.fechaDevolucion.None? {
        reserva := reserva.(fechaDevolucion := Some(now));
      }
      reservas := reservas[rid := reserva];
      r := Ok(());
    }

    // ---------------------------------------------------------------
    // The handlers of views/core.py
    // ---------------------------------------------------------------

    method CrearReserva(s: Session, inp: ReservaInput) returns (r: Result<ReservaId>)
      modifies this
      ensures State() == CoreViews.CrearReserva(old(State()), s, inp).db
      ensures r == CoreViews.CrearReserva(old(State()), s, inp).res
    {
      if !LoggedIn(s) || !IsDocente(s) {
        return Err(AccessDenied);
      }
      var usuario := s.usuarioId.value;
      if usuario !in catalog.usuarios {
        return Err(NotFound);
      }
      var form := ValidateReserva(catalog, inp);
      if form.Err? {
        return Err(form.error);
      }
      var k := next.reserva;
      reservas := reservas[k := ReservaFromForm(form.value, usuario)];
      next := next.(reserva := k + 1);
      r := Ok(k);
    }

    method CancelarReserva(s: Session, rid: ReservaId, motivo: Option<string>, now: int) returns (r: Result<()>)
      modifies this
      ensures State() == CoreViews.CancelarReserva(old(State()), s, rid, motivo, now).db
      ensures r == CoreViews.CancelarReserva(old(State()), s, rid, motivo, now).res
    {
      if !LoggedIn(s) || !IsDocente(s) {
        return Err(AccessDenied);
      }
      var m := Motivo(motivo);
      if m == [] {
        return Err(MissingReason);
      }
      if rid !in reservas || reservas[rid].usuario != s.usuarioId.value {
        return Err(NotFound);
      }
      var reserva := reservas[rid];
      var diferencia := Start(reserva) - now;
      if reserva.estadoReserva == Pendiente {
      } else if reserva.estadoReserva == Aprobada {
        if diferencia <= DaySeconds {
          return Err(CancelTooLate);
        }
      } else {
        return Err(CannotCancel(reserva.estadoReserva));
      }
      reservas := reservas[rid := reserva.(estadoReserva := Rechazada, motivoRechazo := Some(CanceladaPrefix + m))];
      r := Ok(());
    }

    method AprobarReserva(s: Session, rid: ReservaId) returns (r: Result<()>)
      modifies this
      ensures State() == CoreViews.AprobarReserva(old(State()), s, rid).db
      ensures r == CoreViews.AprobarReserva(old(State()), s, rid).res
    {
      if !IsAdmin(s) {
        return Err(AccessDenied);
      }
      if rid !in reservas {
        return Err(NotFound);
      }
      reservas := reservas[rid := reservas[rid].(estadoReserva := Aprobada)];
      r := Ok(());
    }

    method RechazarReserva(s: Session, rid: ReservaId, motivo: Option<string>) returns (r: Result<()>)
      modifies this
      ensures State() == CoreViews.RechazarReserva(old(State()), s, rid, motivo).db
      ensures r == CoreViews.RechazarReserva(old(State()), s, rid, motivo).res
    {
      if !IsAdmin(s) {
        return Err(AccessDenied);
      }
      var m := Motivo(motivo);
      if m == [] {
        return Err(MissingReason);
      }
      if rid !in reservas {
        return Err(NotFound);
      }
      reservas := reservas[rid := reservas[rid].(estadoReserva := Rechazada, motivoRechazo := Some(m))];
      r := Ok(());
    }

    method CrearEquipo(s: Session, data: EquipoInput) returns (r: Result<EquipoId>)
      modifies this
      ensures State() == CoreViews.CrearEquipo(old(State()), s, data).db
      ensures r == CoreViews.CrearEquipo(old(State()), s, data).res
    {
      if !IsAdmin(s) {
        return Err(AccessDenied);
      }
      if data.numSerie.None? {
        return Err(BadRequest);
      }
      if SerialTaken(equipos, data.numSerie.value, None) {
        return Err(DuplicateSerial);
      }
      var estado := EstadoOf(State(), data.idEstado);
      if estado.Err? {
        return Err(estado.error);
      }
      var rack := RackOf(State(), data.idRack);
      if rack.Err? {
        return Err(rack.error);
      }
      if rack.value.Some? {
        var conteoActual := CountInRack(equipos, rack.value.value);
        if conteoActual >= racks[rack.value.value].capacidadTotal {
          return Err(RackFull(racks[rack.value.value].capacidadTotal));
        }
      }
      if data.nomEquipo.None? || data.modelo.None? {
        return Err(BadRequest);
      }
      var k := next.equipo;
      equipos := equipos + [Equipo(k, data.nomEquipo.value, data.numSerie.value, data.modelo.value, rack.value, estado.value)];
      next := next.(equipo := k + 1);
      r := Ok(k);
    }

    method EditarEquipo(s: Session, id: EquipoId, data: EquipoInput) returns (r: Result<()>)
      modifies this
      ensures State() == CoreViews.EditarEquipo(old(State()), s, id, data).db
      ensures r == CoreViews.EditarEquipo(old(State()), s, id, data).res
    {
      if !IsAdmin(s) {
        return Err(AccessDenied);
      }
      if id !in Ids(equipos) {
        return Err(NotFound);
      }
      if data.numSerie.None? {
        return Err(BadRequest);
      }
      if SerialTaken(equipos, data.numSerie.value, Some(id)) {
        return Err(DuplicateSerial);
      }
      var rackNuevo := RackOf(State(), data.idRack);
      if rackNuevo.Err? {
        return Err(rackNuevo.error);
      }
      var i := IndexOf(equipos, id);
      var rackAnterior := equipos[i].rack;
      if rackNuevo.value.Some? && rackNuevo.value != rackAnterior {
        var conteoActual := CountInRack(equipos, rackNuevo.value.value);
        if conteoActual >= racks[rackNuevo.value.value].capacidadTotal {
          return Err(RackFull(racks[rackNuevo.value.value].capacidadTotal));
        }
      }
      if data.nomEquipo.None? || data.modelo.None? {
        return Err(BadRequest);
      }
      var estado := EstadoOf(State(), data.idEstado);
      if estado.Err? {
        return Err(estado.error);
      }
      equipos := equipos[i := equipos[i].(nomEquipo := data.nomEquipo.value, numSerie := data.numSerie.value,
                                          modelo := data.modelo.value, estado := estado.value, rack := rackNuevo.value)];
      r := Ok(());
    }

    method EliminarEquipo(s: Session, id: EquipoId) returns (r: Result<()>)
      modifies this
      ensures State() == CoreViews.EliminarEquipo(old(State()), s, id).db
      ensures r == CoreViews.EliminarEquipo(old(State()), s, id).res
    {
      if !IsAdmin(s) {
        return Err(AccessDenied);
      }
      if id !in Ids(equipos) {
        return Err(NotFound);
      }
      var baja := GetOrCreateEstado(DadoDeBaja);
      if baja.Err? {
        return Err(baja.error);
      }
      var i := IndexOf(equipos, id);
      equipos := equipos[i := equipos[i].(estado := baja.value)];
      r := Ok(());
    }
  }
}
