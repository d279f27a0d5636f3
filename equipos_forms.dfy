/** The teacher's reservation form of STR_Chromebook/Gestion_Equipos/forms.py:
    per-field checks (required fields, existing catalog keys, the quantity
    bounds, the length limits), `clean_hora_fin` and the cross-field `clean`. */
module EquiposForms {
  import opened Base
  import opened Text
  import opened CoreModels
  import opened EquiposModels

  datatype Field =
    | FechaUso | HoraInicio | HoraFin | IdAsignatura | IdCarrera | IdAula
    | CantSolicitada | ResponsableEntrega | TelefonoContacto | IdBloque

  datatype FormError =
    | Missing(field: Field)        // blank, or not a date / time / integer
    | InvalidChoice(field: Field)  // the key is not in the catalog
    | BelowMinimum                 // cant_solicitada < 1
    | AboveMaximum                 // cant_solicitada > 100
    | TooLong(field: Field)        // over max_length
    | FinAfterLimit                // 'La hora de fin no puede ser posterior a las 17:00.'
    | FinNotAfterInicio            // 'La hora de fin debe ser posterior a la hora de inicio.'

  /** The submitted form, decoded: a date, time or number that is missing or
      does not parse is None; a choice carries the submitted key. */
  datatype ReservaInput = ReservaInput(
    fechaUso: Option<Date>, horaInicio: Option<TimeOfDay>, horaFin: Option<TimeOfDay>,
    idAsignatura: Option<nat>, idCarrera: Option<nat>, idAula: Option<nat>,
    cantSolicitada: Option<int>, responsableEntrega: string, telefonoContacto: string,
    idBloque: Option<nat>)

  /** `cleaned_data` of a valid form. */
  datatype ReservaDatos = ReservaDatos(
    fechaUso: Date, horaInicio: TimeOfDay, horaFin: TimeOfDay,
    asignatura: AsignaturaId, carrera: CarreraId, aula: AulaId, bloque: BloqueId,
    cantSolicitada: int, responsableEntrega: string, telefonoContacto: string)

  /** `time(17, 0)`. */
  const HoraLimite: TimeOfDay := 17 * 3600

  const MaxResponsable: nat := 150
  const MaxTelefono: nat := 10

  /** The errors the form reports, as a set: Django keeps them per field,
      and only which ones are present matters to the callers. */
  function Opt<T>(c: bool, e: T): set<T> {
    if c then {e} else {}
  }

  /** A ModelChoiceField: required, and the key must exist. */
  function ChoiceErrors(v: Option<nat>, keys: set<nat>, f: Field): set<FormError> {
    if v.None? then {Missing(f)} else Opt(v.value !in keys, InvalidChoice(f))
  }

  /** A required CharField with a maximum length, on its stripped value. */
  function CharErrors(raw: string, maxLength: nat, f: Field): set<FormError> {
    if Strip(raw) == [] then {Missing(f)} else Opt(|Strip(raw)| > maxLength, TooLong(f))
  }

  function CantErrors(v: Option<int>): set<FormError> {
    if v.None? then {Missing(CantSolicitada)}
    else if v.value < 1 then {BelowMinimum}
    else Opt(v.value > 100, AboveMaximum)
  }

  /** `clean_hora_fin`: an end time after 17:00 is refused. */
  function HoraFinErrors(v: Option<TimeOfDay>): set<FormError> {
    if v.None? then {Missing(HoraFin)} else Opt(v.value > HoraLimite, FinAfterLimit)
  }

  /** `cleaned_data.get('hora_fin')` after `clean_hora_fin`: a refused end
      time is removed from the cleaned data. */
  function CleanedHoraFin(v: Option<TimeOfDay>): (r: Option<TimeOfDay>)
    ensures r.Some? <==> v.Some? && v.value <= HoraLimite
  {
    if v.Some? && v.value <= HoraLimite then v else None
  }

  /** `clean`: compares the two times only when both survived their own checks. */
  function CleanErrors(inicio: Option<TimeOfDay>, fin: Option<TimeOfDay>): set<FormError> {
    var f := CleanedHoraFin(fin);
    Opt(inicio.Some? && f.Some? && f.value <= inicio.value, FinNotAfterInicio)
  }

  /** All errors of the fields and the form-wide one. */
  function Errors(cat: Catalog, inp: ReservaInput): set<FormError> {
    Opt(inp.fechaUso.None?, Missing(FechaUso))
    + Opt(inp.horaInicio.None?, Missing(HoraInicio))
    + HoraFinErrors(inp.horaFin)
    + ChoiceErrors(inp.idAsignatura, cat.asignaturas.Keys, IdAsignatura)
    + ChoiceErrors(inp.idCarrera, cat.carreras.Keys, IdCarrera)
    + ChoiceErrors(inp.idAula, cat.aulas.Keys, IdAula)
    + CantErrors(inp.cantSolicitada)
    + CharErrors(inp.responsableEntrega, MaxResponsable, ResponsableEntrega)
    + CharErrors(inp.telefonoContacto, MaxTelefono, TelefonoContacto)
    + ChoiceErrors(inp.idBloque, cat.bloques.Keys, IdBloque)
    + CleanErrors(inp.horaInicio, inp.horaFin)
  }

  /** The form's acceptance condition, stated field by field. The 10-digit
      pattern of the phone field is a browser hint only and takes no part. */
  predicate Acceptable(cat: Catalog, inp: ReservaInput) {
    && inp.fechaUso.Some? && inp.horaInicio.Some? && inp.horaFin.Some?
    && inp.horaFin.value <= HoraLimite && inp.horaInicio.value < inp.horaFin.value
    && inp.idAsignatura.Some? && inp.idAsignatura.value in cat.asignaturas
    && inp.idCarrera.Some? && inp.idCarrera.value in cat.carreras
    && inp.idAula.Some? && inp.idAula.value in cat.aulas
    && inp.idBloque.Some? && inp.idBloque.value in cat.bloques
    && inp.cantSolicitada.Some? && 1 <= inp.cantSolicitada.value <= 100
    && Strip(inp.responsableEntrega) != [] && |Strip(inp.responsableEntrega)| <= MaxResponsable
    && Strip(inp.telefonoContacto) != [] && |Strip(inp.telefonoContacto)| <= MaxTelefono
  }

  /** `is_valid()` and `cleaned_data`. */
  function ValidateReserva(cat: Catalog, inp: ReservaInput): (r: Result<ReservaDatos>)
    ensures r.Ok? <==> Acceptable(cat, inp)
    ensures r.Err? ==> r.error == InvalidForm
    ensures r.Ok? ==>
      && r.value.fechaUso == inp.fechaUso.value
      && r.value.horaInicio == inp.horaInicio.value && r.value.horaFin == inp.horaFin.value
      && r.value.asignatura == inp.idAsignatura.value && r.value.carrera == inp.idCarrera.value
      && r.value.aula == inp.idAula.value && r.value.bloque == inp.idBloque.value
      && r.value.cantSolicitada == inp.cantSolicitada.value
      && r.value.responsableEntrega == Strip(inp.responsableEntrega)
      && r.value.telefonoContacto == Strip(inp.telefonoContacto)
  {
    ErrorsEmpty(cat, inp);
    if Errors(cat, inp) != {} then Err(InvalidForm)
    else Ok(ReservaDatos(inp.fechaUso.value, inp.horaInicio.value, inp.horaFin.value,
                         inp.idAsignatura.value, inp.idCarrera.value, inp.idAula.value, inp.idBloque.value,
                         inp.cantSolicitada.value, Strip(inp.responsableEntrega), Strip(inp.telefonoContacto)))
  }

  /** The form has no error exactly when it is acceptable. */
  lemma ErrorsEmpty(cat: Catalog, inp: ReservaInput)
    ensures Errors(cat, inp) == {} <==> Acceptable(cat, inp)
  {
  }

  /** The requested quantity is refused outside 1..100. */
  lemma CantOutOfRange(cat: Catalog, inp: ReservaInput)
    requires inp.cantSolicitada.Some?
    ensures inp.cantSolicitada.value < 1 ==> BelowMinimum in Errors(cat, inp)
    ensures inp.cantSolicitada.value > 100 ==> AboveMaximum in Errors(cat, inp)
  {
    var c := CantErrors(inp.cantSolicitada);
    assert inp.cantSolicitada.value < 1 ==> BelowMinimum in c;
    assert inp.cantSolicitada.value > 100 ==> AboveMaximum in c;
  }

  /** 17:00 itself is accepted as an end time; any later time is refused. */
  lemma FinLimit(cat: Catalog, inp: ReservaInput)
    requires inp.horaFin.Some?
    ensures inp.horaFin.value > HoraLimite ==> FinAfterLimit in Errors(cat, inp)
    ensures inp.horaFin.value == HoraLimite ==> FinAfterLimit !in Errors(cat, inp)
  {
    var h := HoraFinErrors(inp.horaFin);
    if inp.horaFin.value > HoraLimite {
      assert FinAfterLimit in h;
    } else if inp.horaFin.value == HoraLimite {
      assert h == {};
      assert FinAfterLimit !in Opt(inp.fechaUso.None?, Missing(FechaUso));
      assert FinAfterLimit !in Opt(inp.horaInicio.None?, Missing(HoraInicio));
      assert FinAfterLimit !in ChoiceErrors(inp.idAsignatura, cat.asignaturas.Keys, IdAsignatura);
      assert FinAfterLimit !in ChoiceErrors(inp.idCarrera, cat.carreras.Keys, IdCarrera);
      assert FinAfterLimit !in ChoiceErrors(inp.idAula, cat.aulas.Keys, IdAula);
      assert FinAfterLimit !in CantErrors(inp.cantSolicitada);
      assert FinAfterLimit !in CharErrors(inp.responsableEntrega, MaxResponsable, ResponsableEntrega);
      assert FinAfterLimit !in CharErrors(inp.telefonoContacto, MaxTelefono, TelefonoContacto);
      assert FinAfterLimit !in ChoiceErrors(inp.idBloque, cat.bloques.Keys, IdBloque);
      assert FinAfterLimit !in CleanErrors(inp.horaInicio, inp.horaFin);
    }
  }

  /** An end time not after the start time is refused. */
  lemma FinNotAfterStart(cat: Catalog, inp: ReservaInput)
    requires inp.horaInicio.Some? && inp.horaFin.Some?
    requires inp.horaFin.value <= inp.horaInicio.value
    ensures FinNotAfterInicio in Errors(cat, inp) || FinAfterLimit in Errors(cat, inp)
  {
    if inp.horaFin.value > HoraLimite {
      FinLimit(cat, inp);
    } else {
      assert FinNotAfterInicio in CleanErrors(inp.horaInicio, inp.horaFin);
    }
  }
}
