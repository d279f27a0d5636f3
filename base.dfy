/** Shared result types of the lending application's handlers.
    Every handler answers either with a success value or with one of the
    errors below; the JSON body `{success: false, error: ...}` of the web
    layer corresponds to `Err`. */
module Base {

  datatype Option<+T> = None | Some(value: T)

  /** The failure reasons the handlers report. */
  datatype Error =
    | AccessDenied                                 // session role gate
    | NotFound                                     // get_object_or_404 / DoesNotExist
    | BadRequest                                   // a required JSON key is missing
    | RackNotSelected                              // empty rack_id in the bulk assignment
    | AlreadyFullyAssigned                         // needed <= 0
    | NotEnoughAvailable(found: nat, needed: nat)  // rack has fewer available devices than needed
    | IntegrityError                               // a unique constraint of the database is violated
    | NothingToUnassign                            // unassign-all with no rows
    | NotASupervisor                               // role label is not exactly 'Supervisor'
    | SupervisorAlreadyAssigned                    // get_or_create found the pair
    | MissingReason                                // blank reason after trimming
    | CancelTooLate                                // approved and less than 24 h ahead
    | CannotCancel(estado: string)                 // status other than Pendiente / Aprobada
    | OnlyApprovedCanBeFinalized(estado: string)   // finalize from a status other than Aprobada
    | DuplicateSerial                              // num_serie already used by a device
    | RackFull(capacidad: int)                     // rack device count >= capacidad_total
    | InvalidTimestamp                             // datetime.fromisoformat fails
    | InvalidForm                                  // a form did not validate
    | ProtectedReference                           // on_delete=PROTECT blocks the deletion
    | InvalidParameter                             // int() of a query parameter fails
    | MultipleObjectsReturned                      // get_or_create found several rows

  datatype Result<+T> = Ok(value: T) | Err(error: Error)

  /** The part of the session the handlers look at. */
  datatype Session = Session(usuarioId: Option<nat>, usuarioTipo: Option<string>)

  /** `request.session.get('usuario_id')` is truthy. */
  predicate LoggedIn(s: Session) {
    s.usuarioId.Some? && s.usuarioId.value != 0
  }

  predicate IsAdmin(s: Session) {
    s.usuarioTipo == Some("administrador")
  }

  /** Logged in as a teacher: a user id in the session and the role 'docente'. */
  predicate IsDocente(s: Session) {
    LoggedIn(s) && s.usuarioTipo == Some("docente")
  }
}
