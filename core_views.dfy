/** The teacher's reservation handlers and the administrator's device and
    approval handlers of STR_Chromebook/Gestion_Equipos/views/core.py, each
    as a function from the database before the request to the database
    after it and the answer. */
module CoreViews {
  import opened Base
  import opened Text
  import opened CoreModels
  import opened EquiposModels
  import opened EquiposForms
  import opened GestionViews

  // ---------------------------------------------------------------
  // crear_reserva
  // ---------------------------------------------------------------

  /** The reservation a valid form creates for user `uid`: the model
      defaults, the session user as owner, and the person collecting the
      devices in upper case. */
  function ReservaFromForm(d: ReservaDatos, uid: UserId): Reserva {
    NewReserva(d.fechaUso, d.horaInicio, d.horaFin, d.cantSolicitada, Upper(d.responsableEntrega),
               d.telefonoContacto, uid, d.asignatura, d.aula, d.carrera)
  }

  /** A logged-in teacher, present in the user table, submits the form; a
      valid form adds one reservation under the next key. */
  ghost function CrearReserva(db: Db, s: Session, inp: ReservaInput): (out: Step<ReservaId>)
    ensures out.res.Err? ==> out.db == db
    ensures out.res.Ok? <==> IsDocente(s) && s.usuarioId.value in db.catalog.usuarios && Acceptable(db.catalog, inp)
    ensures out.res.Ok? ==>
      && out.res.value == db.next.reserva
      && out.db == db.(reservas := db.reservas[db.next.reserva := ReservaFromForm(ValidateReserva(db.catalog, inp).value, s.usuarioId.value)],
                       next := db.next.(reserva := db.next.reserva + 1))
  {
    if !LoggedIn(s) || !IsDocente(s) then Step(db, Err(AccessDenied))
    else if s.usuarioId.value !in db.catalog.usuarios then Step(db, Err(NotFound))
    else match ValidateReserva(db.catalog, inp)
      case Err(e) => Step(db, Err(e))
      case Ok(d) =>
        var k := db.next.reserva;
        Step(db.(reservas := db.reservas[k := ReservaFromForm(d, s.usuarioId.value)],
                 next := db.next.(reserva := k + 1)),
             Ok(k))
  }

  /** The created reservation belongs to the session user, is pending,
      names the collecting person in upper case, and carries the requested
      quantity; its administrative columns are empty. */
  lemma CrearReservaFields(db: Db, s: Session, inp: ReservaInput)
    requires CrearReserva(db, s, inp).res.Ok?
    ensures var out := CrearReserva(db, s, inp);
      var r := out.db.reservas[out.res.value];
      && (EquiposModels.Valid(db) ==> out.res.value !in db.reservas)
      && r.usuario == s.usuarioId.value
      && r.estadoReserva == Pendiente
      && r.responsableEntrega == Upper(Strip(inp.responsableEntrega))
      && r.cantSolicitada == inp.cantSolicitada.value
      && r.motivoRechazo.None? && r.fechaEntrega.None? && r.fechaDevolucion.None?
  {
    var d := ValidateReserva(db.catalog, inp).value;
    var r := ReservaFromForm(d, s.usuarioId.value);
    assert CrearReserva(db, s, inp).db.reservas[db.next.reserva] == r;
  }

  lemma CrearReservaValid(db: Db, s: Session, inp: ReservaInput)
    requires EquiposModels.Valid(db)
    ensures EquiposModels.Valid(CrearReserva(db, s, inp).db)
    ensures WithinCapacity(db) ==> WithinCapacity(CrearReserva(db, s, inp).db)
  {
    var out := CrearReserva(db, s, inp);
    if out.res.Ok? {
      ReservaInsertValid(db, ReservaFromForm(ValidateReserva(db.catalog, inp).value, s.usuarioId.value));
    }
  }

  // ---------------------------------------------------------------
  // Cancelling
  // ---------------------------------------------------------------

  /** Seconds in 24 hours. */
  const DaySeconds: int := 86400

  /** The `puede_cancelar` rule: a pending reservation, or an approved one
      whose start is more than 24 hours away. */
  predicate PuedeCancelar(r: Reserva, now: int) {
    r.estadoReserva == Pendiente || (r.estadoReserva == Aprobada && Start(r) - now > DaySeconds)
  }

  /** `mis_reservas`: the flag of each listed reservation, computed one
      reservation at a time. */
  method MarcarCancelables(rs: seq<Reserva>, now: int) returns (flags: seq<bool>)
    ensures |flags| == |rs|
    ensures forall i | 0 <= i < |rs| :: flags[i] <==> PuedeCancelar(rs[i], now)
  {
    flags := [];
    var i := 0;
    while i < |rs|
      invariant 0 <= i <= |rs|
      invariant |flags| == i
      invariant forall j | 0 <= j < i :: flags[j] <==> PuedeCancelar(rs[j], now)
    {
      var r := rs[i];
      var diferencia := Start(r) - now;
      var puede := r.estadoReserva == Pendiente || (r.estadoReserva == Aprobada && diferencia > DaySeconds);
      flags := flags + [puede];
      i := i + 1;
    }
  }

  /** The reservations of one teacher, as `mis_reservas` lists them (the
      ordering by date is not modelled). */
  function DeUsuario(db: Db, uid: UserId): (ks: set<ReservaId>)
    ensures forall k :: k in ks <==> k in db.reservas && db.reservas[k].usuario == uid
  {
    set k | k in db.reservas && db.reservas[k].usuario == uid
  }

  /** `data.get('motivo', '').strip()`: a missing key reads as empty. */
  function Motivo(motivo: Option<string>): string {
    if motivo.Some? then Strip(motivo.value) else Strip("")
  }

  const CanceladaPrefix: string := "[CANCELADA POR DOCENTE] "

  /** Cancel by the owning teacher: a blank reason is refused first; only
      the teacher's own reservation is found; a pending one is always
      cancelled, an approved one only more than 24 hours ahead, and any
      other status is refused. Cancelling rejects the reservation with the
      reason prefixed. */
  ghost function CancelarReserva(db: Db, s: Session, rid: ReservaId, motivo: Option<string>, now: int): (out: Step<()>)
    ensures out.res.Err? ==> out.db == db
    ensures IsDocente(s) && Motivo(motivo) == [] ==> out.res == Err(MissingReason)
    ensures out.res.Ok? ==>
      && IsDocente(s) && rid in db.reservas && db.reservas[rid].usuario == s.usuarioId.value
      && out.db == db.(reservas := db.reservas[rid := db.reservas[rid].(estadoReserva := Rechazada,
                                                                       motivoRechazo := Some(CanceladaPrefix + Motivo(motivo)))])
  {
    if !LoggedIn(s) || !IsDocente(s) then Step(db, Err(AccessDenied))
    else
      var m := Motivo(motivo);
      if m == [] then Step(db, Err(MissingReason))
      else if rid !in db.reservas || db.reservas[rid].usuario != s.usuarioId.value then Step(db, Err(NotFound))
      else
        var r := db.reservas[rid];
        var diferencia := Start(r) - now;
        if r.estadoReserva == Pendiente || (r.estadoReserva == Aprobada && diferencia > DaySeconds) then
          Step(db.(reservas := db.reservas[rid := r.(estadoReserva := Rechazada,
                                                     motivoRechazo := Some(CanceladaPrefix + m))]),
               Ok(()))
        else if r.estadoReserva == Aprobada then Step(db, Err(CancelTooLate))
        else Step(db, Err(CannotCancel(r.estadoReserva)))
  }

  /** The flag shown in the listing is exactly the rule the cancel handler
      enforces: for the owning teacher with a non-blank reason, cancelling
      succeeds iff the flag is set, and a refusal names the reason. */
  lemma CancelMatchesFlag(db: Db, s: Session, rid: ReservaId, motivo: Option<string>, now: int)
    requires IsDocente(s) && Motivo(motivo) != []
    requires rid in db.reservas && db.reservas[rid].usuario == s.usuarioId.value
    ensures var r := db.reservas[rid];
      var res := CancelarReserva(db, s, rid, motivo, now).res;
      && (res.Ok? <==> PuedeCancelar(r, now))
      && (r.estadoReserva == Aprobada && !PuedeCancelar(r, now) ==> res == Err(CancelTooLate))
      && (r.estadoReserva != Aprobada && !PuedeCancelar(r, now) ==> res == Err(CannotCancel(r.estadoReserva)))
  {
  }

  /** Another teacher's reservation is not found, and nothing changes. */
  lemma CancelOnlyOwn(db: Db, s: Session, rid: ReservaId, motivo: Option<string>, now: int)
    requires IsDocente(s) && Motivo(motivo) != []
    requires rid in db.reservas && db.reservas[rid].usuario != s.usuarioId.value
    ensures CancelarReserva(db, s, rid, motivo, now) == Step(db, Err(NotFound))
  {
  }

  // ---------------------------------------------------------------
  // aprobar_reserva, rechazar_reserva
  // ---------------------------------------------------------------

  /** Approve: no guard on the prior status. */
  ghost function AprobarReserva(db: Db, s: Session, rid: ReservaId): (out: Step<()>)
    ensures out.res.Err? ==> out.db == db
    ensures out.res.Ok? <==> IsAdmin(s) && rid in db.reservas
    ensures out.res.Ok? ==>
      out.db == db.(reservas := db.reservas[rid := db.reservas[rid].(estadoReserva := Aprobada)])
  {
    if !IsAdmin(s) then Step(db, Err(AccessDenied))
    else if rid !in db.reservas then Step(db, Err(NotFound))
    else Step(db.(reservas := db.reservas[rid := db.reservas[rid].(estadoReserva := Aprobada)]), Ok(()))
  }

  /** Reject: a non-blank reason is required before the lookup; no guard
      on the prior status. */
  ghost function RechazarReserva(db: Db, s: Session, rid: ReservaId, motivo: Option<string>): (out: Step<()>)
    ensures out.res.Err? ==> out.db == db
    ensures out.res.Ok? <==> IsAdmin(s) && Motivo(motivo) != [] && rid in db.reservas
    ensures IsAdmin(s) && Motivo(motivo) == [] ==> out.res == Err(MissingReason)
    ensures out.res.Ok? ==>
      out.db == db.(reservas := db.reservas[rid := db.reservas[rid].(estadoReserva := Rechazada,
                                                                     motivoRechazo := Some(Motivo(motivo)))])
  {
    if !IsAdmin(s) then Step(db, Err(AccessDenied))
    else
      var m := Motivo(motivo);
      if m == [] then Step(db, Err(MissingReason))
      else if rid !in db.reservas then Step(db, Err(NotFound))
      else Step(db.(reservas := db.reservas[rid := db.reservas[rid].(estadoReserva := Rechazada,
                                                                     motivoRechazo := Some(m))]),
                Ok(()))
  }

  /** Approving and rejecting change one status and keep the database valid. */
  lemma ReviewValid(db: Db, s: Session, rid: ReservaId, motivo: Option<string>, now: int)
    requires EquiposModels.Valid(db)
    ensures EquiposModels.Valid(AprobarReserva(db, s, rid).db)
    ensures EquiposModels.Valid(RechazarReserva(db, s, rid, motivo).db)
    ensures EquiposModels.Valid(CancelarReserva(db, s, rid, motivo, now).db)
    ensures WithinCapacity(db) ==> WithinCapacity(AprobarReserva(db, s, rid).db)
    ensures WithinCapacity(db) ==> WithinCapacity(RechazarReserva(db, s, rid, motivo).db)
    ensures WithinCapacity(db) ==> WithinCapacity(CancelarReserva(db, s, rid, motivo, now).db)
  {
    AprobarValid(db, s, rid);
    RechazarValid(db, s, rid, motivo);
    CancelarValid(db, s, rid, motivo, now);
  }

  lemma AprobarValid(db: Db, s: Session, rid: ReservaId)
    requires EquiposModels.Valid(db)
    ensures EquiposModels.Valid(AprobarReserva(db, s, rid).db)
    ensures WithinCapacity(db) ==> WithinCapacity(AprobarReserva(db, s, rid).db)
  {
    if rid in db.reservas {
      ReservaUpdateValid(db, rid, db.reservas[rid].(estadoReserva := Aprobada));
    }
  }

  lemma RechazarValid(db: Db, s: Session, rid: ReservaId, motivo: Option<string>)
    requires EquiposModels.Valid(db)
    ensures EquiposModels.Valid(RechazarReserva(db, s, rid, motivo).db)
    ensures WithinCapacity(db) ==> WithinCapacity(RechazarReserva(db, s, rid, motivo).db)
  {
    if rid in db.reservas {
      var r := db.reservas[rid];
      ReservaUpdateValid(db, rid, r.(estadoReserva := Rechazada, motivoRechazo := Some(Motivo(motivo))));
    }
  }

  lemma CancelarValid(db: Db, s: Session, rid: ReservaId, motivo: Option<string>, now: int)
    requires EquiposModels.Valid(db)
    ensures EquiposModels.Valid(CancelarReserva(db, s, rid, motivo, now).db)
    ensures WithinCapacity(db) ==> WithinCapacity(CancelarReserva(db, s, rid, motivo, now).db)
  {
    if rid in db.reservas {
      var r := db.reservas[rid];
      ReservaUpdateValid(db, rid, r.(estadoReserva := Rechazada, motivoRechazo := Some(CanceladaPrefix + Motivo(motivo))));
    }
  }

  // ---------------------------------------------------------------
  // crear_equipo, editar_equipo, eliminar_equipo
  // ---------------------------------------------------------------

  /** The request body of the device handlers; None for an absent key. */
  datatype EquipoInput = EquipoInput(nomEquipo: Option<string>, numSerie: Option<string>, modelo: Option<string>,
                                     idEstado: Option<nat>, idRack: Option<nat>)

  /** `Rack.objects.get(id_rack=data['id_rack']) if data.get('id_rack') else None`:
      an absent or zero key means no rack; an unknown one is an error. */
  function RackOf(db: Db, idRack: Option<nat>): (r: Result<Option<RackId>>)
    ensures r.Ok? && r.value.Some? ==> r.value.value in db.racks
    ensures r.Err? <==> idRack.Some? && idRack.value != 0 && idRack.value !in db.racks
  {
    if idRack.None? || idRack.value == 0 then Ok(None)
    else if idRack.value !in db.racks then Err(NotFound)
    else Ok(Some(idRack.value))
  }

  /** `EstadoEquipo.objects.get(id_estado_equipo=data['id_estado'])`. */
  function EstadoOf(db: Db, idEstado: Option<nat>): (r: Result<EstadoId>)
    ensures r.Ok? <==> idEstado.Some? && idEstado.value in db.estados
    ensures r.Ok? ==> r.value == idEstado.value
  {
    if idEstado.None? then Err(BadRequest)
    else if idEstado.value !in db.estados then Err(NotFound)
    else Ok(idEstado.value)
  }

  /** The rack is full: it already holds `capacidad_total` devices or more. */
  predicate Full(db: Db, rk: RackId)
    requires rk in db.racks
  {
    CountInRack(db.equipos, rk) >= db.racks[rk].capacidadTotal
  }

  /** Create a device: a duplicate serial and a full rack are refused, and
      on every error nothing is created. The new device is appended under
      the next key. */
  function CrearEquipo(db: Db, s: Session, data: EquipoInput): (out: Step<EquipoId>)
    ensures out.res.Err? ==> out.db == db
    ensures IsAdmin(s) && data.numSerie.Some? && SerialTaken(db.equipos, data.numSerie.value, None) ==>
              out.res == Err(DuplicateSerial)
    ensures out.res.Ok? ==>
      && data.numSerie.Some? && !SerialTaken(db.equipos, data.numSerie.value, None)
      && CreatedDevice(db, data, out)
  {
    if !IsAdmin(s) then Step(db, Err(AccessDenied))
    else if data.numSerie.None? then Step(db, Err(BadRequest))
    else if SerialTaken(db.equipos, data.numSerie.value, None) then Step(db, Err(DuplicateSerial))
    else match EstadoOf(db, data.idEstado)
      case Err(e) => Step(db, Err(e))
      case Ok(estado) =>
        match RackOf(db, data.idRack)
        case Err(e) => Step(db, Err(e))
        case Ok(rack) =>
          if rack.Some? && Full(db, rack.value) then Step(db, Err(RackFull(db.racks[rack.value].capacidadTotal)))
          else if data.nomEquipo.None? || data.modelo.None? then Step(db, Err(BadRequest))
          else
            var k := db.next.equipo;
            var e := Equipo(k, data.nomEquipo.value, data.numSerie.value, data.modelo.value, rack, estado);
            Step(db.(equipos := db.equipos + [e], next := db.next.(equipo := k + 1)), Ok(k))
  }

  /** What a successful create leaves behind: exactly one device more, at
      the end, with the submitted fields, a known status and rack, and a
      rack that was not full. */
  predicate CreatedDevice(db: Db, data: EquipoInput, out: Step<EquipoId>)
    requires out.res.Ok?
  {
    && data.nomEquipo.Some? && data.numSerie.Some? && data.modelo.Some? && data.idEstado.Some?
    && out.res.value == db.next.equipo
    && |out.db.equipos| == |db.equipos| + 1
    && out.db.equipos[..|db.equipos|] == db.equipos
    && var e := out.db.equipos[|db.equipos|];
       && e == Equipo(out.res.value, data.nomEquipo.value, data.numSerie.value, data.modelo.value, e.rack, data.idEstado.value)
       && RackOf(db, data.idRack) == Ok(e.rack)
       && (e.rack.Some? ==> !Full(db, e.rack.value))
       && out.db == db.(equipos := out.db.equipos, next := db.next.(equipo := db.next.equipo + 1))
  }

  /** Creating a device keeps the database valid, and a rack that was
      within its capacity stays within it. */
  lemma CrearEquipoValid(db: Db, s: Session, data: EquipoInput)
    requires EquiposModels.Valid(db)
    ensures EquiposModels.Valid(CrearEquipo(db, s, data).db)
    ensures WithinCapacity(db) ==> WithinCapacity(CrearEquipo(db, s, data).db)
  {
    var out := CrearEquipo(db, s, data);
    if out.res.Ok? {
      var e := out.db.equipos[|db.equipos|];
      assert out.db.equipos == db.equipos + [e];
      AppendOk(db, e);
      EquiposChangeValid(db, db.equipos + [e], e.id + 1);
      if WithinCapacity(db) {
        AppendCapacity(db, e);
      }
    }
  }

  /** Edit a device: the serial may not be held by another device; the
      capacity of the target rack is checked only when the rack changes.
      On every error nothing changes. */
  function EditarEquipo(db: Db, s: Session, id: EquipoId, data: EquipoInput): (out: Step<()>)
    ensures out.res.Err? ==> out.db == db
    ensures IsAdmin(s) && id in Ids(db.equipos) && data.numSerie.Some? && SerialTaken(db.equipos, data.numSerie.value, Some(id)) ==>
              out.res == Err(DuplicateSerial)
    ensures out.res.Ok? ==>
      && id in Ids(db.equipos)
      && data.nomEquipo.Some? && data.numSerie.Some? && data.modelo.Some?
      && !SerialTaken(db.equipos, data.numSerie.value, Some(id))
      && var i := IndexOf(db.equipos, id);
         var anterior := db.equipos[i];
         && |out.db.equipos| == |db.equipos|
         && var e := out.db.equipos[i];
         && out.db.equipos == db.equipos[i := e]
         && e.id == id && e.nomEquipo == data.nomEquipo.value && e.numSerie == data.numSerie.value
         && e.modelo == data.modelo.value && EstadoOf(db, data.idEstado) == Ok(e.estado)
         && RackOf(db, data.idRack) == Ok(e.rack)
         && (e.rack.Some? && e.rack != anterior.rack ==> !Full(db, e.rack.value))
         && out.db == db.(equipos := out.db.equipos)
  {
    if !IsAdmin(s) then Step(db, Err(AccessDenied))
    else if id !in Ids(db.equipos) then Step(db, Err(NotFound))
    else if data.numSerie.None? then Step(db, Err(BadRequest))
    else if SerialTaken(db.equipos, data.numSerie.value, Some(id)) then Step(db, Err(DuplicateSerial))
    else match RackOf(db, data.idRack)
      case Err(e) => Step(db, Err(e))
      case Ok(rackNuevo) =>
        var i := IndexOf(db.equipos, id);
        var anterior := db.equipos[i];
        if rackNuevo.Some? && rackNuevo != anterior.rack && Full(db, rackNuevo.value) then
          Step(db, Err(RackFull(db.racks[rackNuevo.value].capacidadTotal)))
        else if data.nomEquipo.None? || data.modelo.None? then Step(db, Err(BadRequest))
        else match EstadoOf(db, data.idEstado)
          case Err(e) => Step(db, Err(e))
          case Ok(estado) =>
            var e := anterior.(nomEquipo := data.nomEquipo.value, numSerie := data.numSerie.value,
                               modelo := data.modelo.value, estado := estado, rack := rackNuevo);
            Step(db.(equipos := db.equipos[i := e]), Ok(()))
  }

  /** Editing keeps the database valid, and keeps every rack within its
      capacity: a device only moves into a rack that is not full. */
  lemma EditarEquipoValid(db: Db, s: Session, id: EquipoId, data: EquipoInput)
    requires EquiposModels.Valid(db)
    ensures EquiposModels.Valid(EditarEquipo(db, s, id, data).db)
    ensures WithinCapacity(db) ==> WithinCapacity(EditarEquipo(db, s, id, data).db)
  {
    var out := EditarEquipo(db, s, id, data);
    if out.res.Ok? {
      var i := IndexOf(db.equipos, id);
      var e := out.db.equipos[i];
      OthersDiffer(db.equipos, i);
      forall q | 0 <= q < |db.equipos| && q != i ensures db.equipos[q].numSerie != e.numSerie {
        assert db.equipos[q] in db.equipos;
      }
      ReplaceOk(db, i, e);
      EquiposChangeValid(db, db.equipos[i := e], db.next.equipo);
      assert out.db == db.(equipos := db.equipos[i := e], next := db.next.(equipo := db.next.equipo));
      if WithinCapacity(db) {
        ReplaceCapacity(db, i, e);
      }
    }
  }

  /** Soft delete: the device stays, with its rack, and gets a status
      labelled 'Dado de baja'. */
  ghost function EliminarEquipo(db: Db, s: Session, id: EquipoId): (out: Step<()>)
    ensures out.res.Err? ==> out.db == db
    ensures out.res.Ok? ==>
      && id in Ids(db.equipos)
      && var i := IndexOf(db.equipos, id);
         && |out.db.equipos| == |db.equipos|
         && out.db.equipos == db.equipos[i := db.equipos[i].(estado := out.db.equipos[i].estado)]
         && out.db.equipos[i].estado in out.db.estados
         && out.db.estados[out.db.equipos[i].estado] == DadoDeBaja
         && out.db == db.(equipos := out.db.equipos, estados := out.db.estados, next := out.db.next)
  {
    if !IsAdmin(s) then Step(db, Err(AccessDenied))
    else if id !in Ids(db.equipos) then Step(db, Err(NotFound))
    else match GetOrCreateEstado(db, DadoDeBaja)
      case Err(e) => Step(db, Err(e))
      case Ok((db1, baja)) =>
        var i := IndexOf(db.equipos, id);
        Step(db1.(equipos := db1.equipos[i := db1.equipos[i].(estado := baja)]), Ok(()))
  }

  lemma EliminarEquipoValid(db: Db, s: Session, id: EquipoId)
    requires EquiposModels.Valid(db)
    ensures EquiposModels.Valid(EliminarEquipo(db, s, id).db)
    ensures WithinCapacity(db) ==> WithinCapacity(EliminarEquipo(db, s, id).db)
  {
    var out := EliminarEquipo(db, s, id);
    if out.res.Ok? {
      GetOrCreateValid(db, DadoDeBaja);
      var g := GetOrCreateEstado(db, DadoDeBaja);
      var db1, baja := g.value.0, g.value.1;
      var i := IndexOf(db.equipos, id);
      SetEstadoValid(db1, {id}, baja);
      var d2 := db1.(equipos := SetEstado(db1.equipos, {id}, baja));
      OthersDiffer(db.equipos, i);
      assert forall p | 0 <= p < |db.equipos| :: d2.equipos[p] == out.db.equipos[p];
      assert out.db == d2;
    }
  }
}
