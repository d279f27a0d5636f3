# STR_Chromebook lending core, in Dafny

STR_Chromebook is a Django application through which teachers reserve Chromebooks for a class.
Administrators then approve or reject each reservation. They also hand out devices from racks,
assign supervisors, record evidence photos, and close the loan. This project models the part of
the application that decides what happens to the data:

- **The tables.** The records of `Gestion_Equipos/models.py` (status labels, devices, racks,
  reservations, device-assignment rows, supervisor rows and evidence rows) are modelled, together
  with the catalog of `core/models.py` (roles, titles, users, faculties, careers, subjects,
  teacher-career links, blocks, classrooms). Uniqueness constraints and `on_delete` rules are
  stated as invariants (`EquiposModels.Valid`, `CoreModels.Valid`) and as delete operations.
- **The handlers.** The administrator's handlers of `views/gestion.py` and the teacher's and
  device handlers of `views/core.py` each have two forms:
  - a specification function over the database value (`GestionViews`, `CoreViews`), which returns
    the new database and a success-or-error answer;
  - a method of the imperative store `Store.LendingStore`, which checks and then writes its fields
    as the handler does, and whose contract ties the new state and the answer to that
    specification.

  A lemma named after each specification with the suffix `Valid` shows that the handler keeps the
  database valid and keeps every rack within its capacity.
- **The form validators.** These are the reservation form of `Gestion_Equipos/forms.py` and the
  administrator's user form of `core/forms.py`. The user form is a class, because `__init__` sets
  the required flags and `save` sets the password on the model object.
- **The monthly report** of `views/reportes.py`:
  - the page's month filter, status counts, quantity sum, career and requester rankings, and the
    count of devices in use;
  - the spreadsheet download, written by methods that fill a cell map row by row. The download's
    statistics block is proved to show the page's figures.

Session checks are a `Session` parameter: `usuario_id` and `usuario_tipo`. The current time is an
integer parameter, in seconds. The body of a JSON request is passed already decoded, with `None`
for an absent key.

Modules:
- `Base`: Option, Result, errors, session.
- `Text`: `strip`, ASCII `lower`, `upper`, `int()` and `str()`.
- `CoreModels`, `CoreForms`.
- `EquiposModels`, `EquiposForms`.
- `GestionViews`, `CoreViews`.
- `Store`.
- `Reportes`.
- `Scenarios`: walk-throughs of the lending lifecycle, each stated for every database that sets the scene.

## Model

| member | source | states |
|---|---|---|
| Text.TrimLeftSuffix | STR_Chromebook/Gestion_Equipos/views/core.py:136 | `lstrip()` drops an all-whitespace prefix and nothing else: the result is the rest of the input and does not start with whitespace |
| Text.TrimRightPrefix | STR_Chromebook/Gestion_Equipos/views/core.py:136 | `rstrip()` drops an all-whitespace suffix and nothing else: the result is the rest of the input and does not end with whitespace |
| Text.Strip | STR_Chromebook/Gestion_Equipos/views/core.py:136 | `str.strip()`: no longer than the input, and a non-empty result starts and ends with a non-whitespace character |
| Text.StripSlice | STR_Chromebook/Gestion_Equipos/views/core.py:136 | `strip()` removes only whitespace: the result is the slice between an all-whitespace prefix and an all-whitespace suffix |
| Text.StripBlank | STR_Chromebook/Gestion_Equipos/views/core.py:136-139 | a reason is blank after `strip()` exactly when it is all whitespace |
| Text.StripKeeps | STR_Chromebook/Gestion_Equipos/views/core.py:136 | text with no whitespace at either end is unchanged by `strip()` |
| Text.Lower | STR_Chromebook/Gestion_Equipos/views/gestion.py:112 | ASCII lower-casing, character by character, keeping the length |
| Text.LowerNormal | STR_Chromebook/Gestion_Equipos/views/gestion.py:189 | lower-casing leaves no upper-case ASCII letter and is idempotent, so `iexact` is an equivalence |
| Text.Upper | STR_Chromebook/Gestion_Equipos/views/core.py:51 | `str.upper()` character by character on ASCII and the single-letter Latin-1 mappings, keeping the length |
| Text.UpperNormal | STR_Chromebook/Gestion_Equipos/views/core.py:51 | upper-casing leaves no lower-case ASCII letter and applying it twice changes nothing more |
| Text.NatToString | STR_Chromebook/Gestion_Equipos/views/reportes.py:110 | `str(n)` is a non-empty run of digits |
| Text.NatToStringValue | STR_Chromebook/Gestion_Equipos/views/reportes.py:110 | `str(n)` has no leading zero and denotes `n` |
| Text.ParseIntRoundTrip | STR_Chromebook/Gestion_Equipos/views/reportes.py:42-43 | `int(str(n)) == n` for every integer |
| Text.ParseDigitRun | STR_Chromebook/Gestion_Equipos/views/reportes.py:42-43 | a well-formed digit run parses to its value |
| Text.ParseSignedRun | STR_Chromebook/Gestion_Equipos/views/reportes.py:42-43 | a minus sign and a digit run parse to the negated value |
| Text.ParseIntNeedsDigit | STR_Chromebook/Gestion_Equipos/views/reportes.py:41-46 | text with no digit is never an integer, so `int()` raises |
| CoreModels.RoleLabel | STR_Chromebook/core/models.py:47-51 | a user's role label exists exactly for known users and is the label of their role row |
| CoreModels.DeleteTipoUsuario | STR_Chromebook/core/models.py:47-51 | PROTECT: a role held by any user cannot be deleted; otherwise only that role goes and the catalog stays valid |
| CoreModels.DeleteTitulo | STR_Chromebook/core/models.py:52-58 | SET_NULL: users that held the title keep everything except the title, which becomes none |
| CoreModels.DeleteTituloValid | STR_Chromebook/core/models.py:52-58 | clearing a deleted title from its holders keeps the catalog valid |
| CoreModels.DeleteUsuario | STR_Chromebook/core/models.py:132-136 | deleting a user removes exactly its teacher-career rows |
| CoreModels.DeleteUsuarioValid | STR_Chromebook/core/models.py:127-150 | the catalog stays valid after a user is deleted |
| CoreModels.DeleteFacultad | STR_Chromebook/core/models.py:97-102 | PROTECT: a faculty referenced by a career cannot be deleted |
| CoreModels.DeleteCarrera | STR_Chromebook/core/models.py:137-141 | deleting a career removes exactly its teacher-career rows |
| CoreModels.DeleteCarreraValid | STR_Chromebook/core/models.py:137-150 | the catalog stays valid after a career and its links are deleted |
| CoreModels.DeleteBloque | STR_Chromebook/core/models.py:175-179 | CASCADE: deleting a block deletes exactly its classrooms |
| CoreModels.DeleteBloqueValid | STR_Chromebook/core/models.py:175-179 | every remaining classroom still belongs to an existing block |
| CoreModels.AddDocenteCarrera | STR_Chromebook/core/models.py:147 | a (user, career) pair is inserted only if both exist and the pair is new |
| CoreModels.AddDocenteCarreraValid | STR_Chromebook/core/models.py:143-150 | after an accepted insertion each pair still occurs at most once and every link points at an existing user and career |
| CoreModels.SaveUsuario | STR_Chromebook/core/models.py:38-43 | a save that would repeat another user's username or cedula, or name an unknown role or title, is refused; otherwise only row `id` changes |
| CoreModels.SaveUsuarioValid | STR_Chromebook/core/models.py:38-43 | an accepted save keeps usernames and cedulas unique and every role and title reference existing |
| CoreModels.WithPassword | STR_Chromebook/core/models.py:68-70 | `set_password` changes only the stored password, to the hasher's encoding of the raw text |
| CoreModels.SetThenCheck | STR_Chromebook/core/models.py:68-74 | after `set_password(p)`, `check_password(p)` holds for a sound hasher, and nothing else of the row changed |
| CoreModels.UsuarioInstance.constructor | STR_Chromebook/core/models.py:34-74 | a model object holds its primary key and its row |
| CoreModels.UsuarioInstance.SetPassword | STR_Chromebook/core/models.py:68-70 | the object's row is replaced by the row with the new password, the key stays, and `check_password` accepts the raw text |
| CoreForms.CleanChar | STR_Chromebook/core/forms.py:8-20 | a CharField cleans to the stripped text, and to nothing exactly when it is required and blank |
| CoreForms.CleanError | STR_Chromebook/core/forms.py:34-48 | a mismatch is raised iff either entry is non-empty and they differ; "too short" iff they match and have fewer than 4 characters |
| CoreForms.PasswordErrorsEmpty | STR_Chromebook/core/forms.py:27-48 | the password part validates iff required fields are non-blank, the entries agree, and a given password has at least 4 characters |
| CoreForms.MismatchRejected | STR_Chromebook/core/forms.py:39-42 | differing entries, either of them non-empty, always report a mismatch |
| CoreForms.UsuarioAdminForm.constructor | STR_Chromebook/core/forms.py:27-32 | both password fields are required exactly when the instance has no primary key |
| CoreForms.CharErrors | STR_Chromebook/core/models.py:37-43 | a required model CharField fails iff its stripped text is blank or longer than `max_length`, with that one error |
| CoreForms.MetaErrorsEmpty | STR_Chromebook/core/forms.py:22-25 | the Meta fields validate iff each text is non-blank and within 10/150/10/10/100 characters, the role and any title exist, and no other user holds the username or the cedula |
| CoreForms.ValidMetaCommits | STR_Chromebook/core/models.py:38-43 | fields that validate never make the save raise IntegrityError, for an edited user and for a new one |
| CoreForms.UsuarioAdminForm.IsValid | STR_Chromebook/core/forms.py:22-48 | `is_valid()` is true iff there is no Meta-field, password or `clean` error and `validate_unique` finds no other user with the username or the cedula |
| CoreForms.UsuarioAdminForm.Save | STR_Chromebook/core/forms.py:50-61 | an invalid form changes nothing; a valid one copies the stripped fields, sets the password only when one was typed (otherwise it is unchanged), and its commit always succeeds |
| CoreForms.SavedPasswordChecks | STR_Chromebook/core/forms.py:55-59 | a user saved with a typed password can log in with it |
| EquiposModels.NewReserva | STR_Chromebook/Gestion_Equipos/models.py:52-107 | a new reservation is 'Pendiente' with no reason, notes or timestamps |
| EquiposModels.IndexOf | STR_Chromebook/Gestion_Equipos/models.py:20-47 | the position of a device key names that device |
| EquiposModels.SetEstado | STR_Chromebook/Gestion_Equipos/views/gestion.py:243 | exactly the listed devices get the new status; all others are unchanged |
| EquiposModels.SetEstadoKeeps | STR_Chromebook/Gestion_Equipos/views/gestion.py:243 | a status update keeps keys, serials and rack column |
| EquiposModels.RackColumn | STR_Chromebook/Gestion_Equipos/models.py:28-34 | the rack of each device, position by position |
| EquiposModels.OccurrencesUpdate | STR_Chromebook/Gestion_Equipos/views/core.py:500-503 | moving one device changes each rack's count by at most the moved device |
| EquiposModels.SerialAndKeyUnique | STR_Chromebook/Gestion_Equipos/models.py:24 | in a valid database no two devices share a `num_serie` or a key |
| EquiposModels.PairsOccurOnce | STR_Chromebook/Gestion_Equipos/models.py:132 | each (reservation, device) pair and each (reservation, supervisor) pair occurs at most once (models.py:192 too) |
| EquiposModels.GetOrCreateEstado | STR_Chromebook/Gestion_Equipos/views/gestion.py:196 | `get_or_create(nom_estado=…)`: fails with MultipleObjectsReturned iff the label is duplicated, returns the existing row if there is one and otherwise adds exactly one new row |
| EquiposModels.GetOrCreateValid | STR_Chromebook/Gestion_Equipos/views/gestion.py:196 | get_or_create keeps the database valid and touches no device or rack |
| EquiposModels.SetEstadoValid | STR_Chromebook/Gestion_Equipos/views/gestion.py:243 | setting a known status keeps the database valid and within capacity |
| EquiposModels.ReservaUpdateValid | STR_Chromebook/Gestion_Equipos/views/core.py:170-172 | overwriting one reservation keeps the database valid |
| EquiposModels.ReservaInsertValid | STR_Chromebook/Gestion_Equipos/views/core.py:53 | inserting a reservation under the next key keeps the database valid |
| EquiposModels.EquiposChangeValid | STR_Chromebook/Gestion_Equipos/models.py:20-47 | a device table that is consistent and keeps every key keeps the database valid |
| EquiposModels.AppendOk | STR_Chromebook/Gestion_Equipos/views/core.py:461-467 | appending a device with a fresh serial and known references keeps the device invariant |
| EquiposModels.ReplaceOk | STR_Chromebook/Gestion_Equipos/views/core.py:510-515 | replacing a device by one with a serial not held elsewhere keeps the device invariant |
| EquiposModels.ReplaceSerials | STR_Chromebook/Gestion_Equipos/views/core.py:489-511 | a replacement whose serial no other device holds keeps serials unique |
| EquiposModels.ReplaceIncreasing | STR_Chromebook/Gestion_Equipos/views/core.py:510-515 | a replacement with the same key keeps keys increasing and loses none |
| EquiposModels.AppendCapacity | STR_Chromebook/Gestion_Equipos/views/core.py:452-458 | a device added only to a rack below capacity keeps every rack within capacity |
| EquiposModels.ReplaceCapacity | STR_Chromebook/Gestion_Equipos/views/core.py:500-506 | a device moved only to a rack below capacity keeps every rack within capacity |
| EquiposModels.DeleteReserva | STR_Chromebook/Gestion_Equipos/models.py:115-120 | deleting a reservation removes exactly its supervisor, evidence and assignment rows (models.py:155-160, 177-181) and nothing else |
| EquiposModels.DeleteReservaValid | STR_Chromebook/Gestion_Equipos/models.py:115-181 | the database stays valid after a reservation is deleted |
| EquiposModels.Without | STR_Chromebook/Gestion_Equipos/models.py:182-186 | the device table without exactly the device with that key |
| EquiposModels.WithoutIncreasing | STR_Chromebook/Gestion_Equipos/models.py:20-47 | removing a device keeps the keys in increasing order |
| EquiposModels.DeleteEquipo | STR_Chromebook/Gestion_Equipos/models.py:182-186 | deleting a device removes it and exactly its assignment rows |
| EquiposModels.DeleteEquipoValid | STR_Chromebook/Gestion_Equipos/models.py:182-186 | the database stays valid after a device is deleted |
| EquiposModels.ClearRack | STR_Chromebook/Gestion_Equipos/models.py:28-34 | SET_NULL: exactly the devices of that rack get rack = none, nothing else changes |
| EquiposModels.ClearRackKeeps | STR_Chromebook/Gestion_Equipos/models.py:28-34 | clearing a rack keeps keys and serials |
| EquiposModels.DeleteRack | STR_Chromebook/Gestion_Equipos/models.py:28-34 | deleting a rack leaves every device in place, with rack = none for its former devices |
| EquiposModels.DeleteRackValid | STR_Chromebook/Gestion_Equipos/models.py:28-34 | the database stays valid after a rack is deleted |
| EquiposModels.DeleteEstado | STR_Chromebook/Gestion_Equipos/models.py:35-39 | PROTECT: a status label still referenced by a device cannot be deleted |
| EquiposForms.CleanedHoraFin | STR_Chromebook/Gestion_Equipos/forms.py:118-126 | an end time survives `clean_hora_fin` iff it is present and not after 17:00 |
| EquiposForms.ValidateReserva | STR_Chromebook/Gestion_Equipos/forms.py:66-135 | the form is valid iff it is acceptable field by field, and its cleaned data are the submitted values with the text stripped |
| EquiposForms.ErrorsEmpty | STR_Chromebook/Gestion_Equipos/forms.py:79-99 | no error iff acceptable: choices exist, quantity in 1..100, responsible ≤ 150 and phone ≤ 10 characters (the 10-digit pattern is not enforced), end ≤ 17:00 and after the start |
| EquiposForms.CantOutOfRange | STR_Chromebook/Gestion_Equipos/forms.py:66-70 | a quantity below 1 or above 100 is refused |
| EquiposForms.FinLimit | STR_Chromebook/Gestion_Equipos/forms.py:118-126 | an end time after 17:00 is refused; exactly 17:00 is accepted |
| EquiposForms.FinNotAfterStart | STR_Chromebook/Gestion_Equipos/forms.py:128-135 | an end time not after the start time is refused |
| GestionViews.Disponibles | STR_Chromebook/Gestion_Equipos/views/gestion.py:187-190 | the rack's devices whose status reads 'Disponible' in any case, taken from the table |
| GestionViews.Take | STR_Chromebook/Gestion_Equipos/views/gestion.py:190 | the slice `[:n]`: the first `min(n, len)` elements |
| GestionViews.DisponiblesAppend | STR_Chromebook/Gestion_Equipos/views/gestion.py:187-190 | filtering distributes over concatenation |
| GestionViews.DisponiblesIncreasing | STR_Chromebook/Gestion_Equipos/views/gestion.py:187-190 | the filtered devices keep the table's key order |
| GestionViews.FirstInOrder | STR_Chromebook/Gestion_Equipos/views/gestion.py:187-190 | a device is picked iff it is in the rack, available, and fewer than `n` available rack devices come before it |
| GestionViews.NewRows | STR_Chromebook/Gestion_Equipos/views/gestion.py:198-204 | one new row per picked device, pairing it with the reservation under consecutive fresh keys |
| GestionViews.RowsOfUnion | STR_Chromebook/Gestion_Equipos/views/gestion.py:180 | adding rows of one reservation adds them to its assignment count |
| GestionViews.AddRows | STR_Chromebook/Gestion_Equipos/views/gestion.py:207 | the bulk insert keeps all old rows and adds exactly the new ones |
| GestionViews.NewRowsSize | STR_Chromebook/Gestion_Equipos/views/gestion.py:198-207 | the insert creates exactly one row per picked device |
| GestionViews.NewRowsDistinct | STR_Chromebook/Gestion_Equipos/models.py:192 | the inserted pairs are new and pairwise different, so uniqueness holds |
| GestionViews.AddRowsValid | STR_Chromebook/Gestion_Equipos/views/gestion.py:207 | the bulk insert keeps the database valid |
| GestionViews.StatusStepValid | STR_Chromebook/Gestion_Equipos/views/gestion.py:208 | the bulk status update keeps validity and capacity |
| GestionViews.InsertValid | STR_Chromebook/Gestion_Equipos/views/gestion.py:207-208 | insert plus status update keeps validity and capacity |
| GestionViews.Commit | STR_Chromebook/Gestion_Equipos/views/gestion.py:196-208 | a refused insert leaves only a possibly new 'En uso' label behind; other errors leave the database unchanged |
| GestionViews.AsignarRack | STR_Chromebook/Gestion_Equipos/views/gestion.py:166-215 | bulk assignment from one rack: every error except the failed insert leaves the database unchanged |
| GestionViews.AsignarRackCommits | STR_Chromebook/Gestion_Equipos/views/gestion.py:175-193 | reaching the insert requires admin, reservation, a selected and existing rack, needed > 0 and enough available devices |
| GestionViews.AsignarRackNothingNeeded | STR_Chromebook/Gestion_Equipos/views/gestion.py:180-184 | when needed ≤ 0 the request is refused and nothing changes |
| GestionViews.AsignarRackAllOrNothing | STR_Chromebook/Gestion_Equipos/views/gestion.py:187-193 | with fewer available devices than needed, no row is created and no device changes |
| GestionViews.AsignarRackRows | STR_Chromebook/Gestion_Equipos/views/gestion.py:180-207 | success creates exactly `needed` rows, all for that reservation, leaves it with exactly `cant_solicitada` assignments, and changes no other table |
| GestionViews.CommitDevices | STR_Chromebook/Gestion_Equipos/views/gestion.py:199-208 | a successful commit sets exactly the picked devices to a status labelled 'En uso' |
| GestionViews.AsignarRackDevices | STR_Chromebook/Gestion_Equipos/views/gestion.py:187-208 | success sets exactly the rack's first `needed` available devices, in table order, to 'En uso', and no other device changes |
| GestionViews.CommitValid | STR_Chromebook/Gestion_Equipos/views/gestion.py:196-208 | the commit keeps validity and capacity |
| GestionViews.AsignarRackValid | STR_Chromebook/Gestion_Equipos/views/gestion.py:166-215 | bulk assignment keeps validity and capacity |
| GestionViews.Picked | STR_Chromebook/Gestion_Equipos/views/gestion.py:187-190 | the picked devices are table devices in key order |
| GestionViews.RowsNotOf | STR_Chromebook/Gestion_Equipos/views/gestion.py:240 | the assignment table without exactly the rows of one reservation |
| GestionViews.DesasignarTodos | STR_Chromebook/Gestion_Equipos/views/gestion.py:218-250 | errors leave the database unchanged, and a reservation with no rows reports "nothing to unassign" |
| GestionViews.DesasignarTodosEffect | STR_Chromebook/Gestion_Equipos/views/gestion.py:229-243 | success deletes exactly that reservation's rows and sets exactly those devices to 'Disponible' |
| GestionViews.DesasignarTodosValid | STR_Chromebook/Gestion_Equipos/views/gestion.py:218-250 | unassign-all keeps validity and capacity |
| GestionViews.DesasignarEquipo | STR_Chromebook/Gestion_Equipos/views/gestion.py:253-274 | unassign-one deletes exactly that row; errors change nothing |
| GestionViews.DesasignarEquipoEffect | STR_Chromebook/Gestion_Equipos/views/gestion.py:262-269 | the row's device, and no other, gets a status labelled 'Disponible' |
| GestionViews.DesasignarEquipoValid | STR_Chromebook/Gestion_Equipos/views/gestion.py:253-274 | unassign-one keeps validity and capacity |
| GestionViews.AsignarSupervisor | STR_Chromebook/Gestion_Equipos/views/gestion.py:277-314 | a role other than exactly 'Supervisor' and a duplicate pair are refused with no change; success adds exactly one row |
| GestionViews.AsignarSupervisorValid | STR_Chromebook/Gestion_Equipos/views/gestion.py:294-297 | supervisor assignment keeps validity and capacity and returns a fresh key |
| GestionViews.DesasignarSupervisor | STR_Chromebook/Gestion_Equipos/views/gestion.py:317-331 | succeeds iff admin and the row exists, and then removes exactly that row |
| GestionViews.SubirEvidencia | STR_Chromebook/Gestion_Equipos/views/gestion.py:85-97 | an evidence record is added under the next key only with a valid type and an existing reservation |
| GestionViews.SubirEvidenciaValid | STR_Chromebook/Gestion_Equipos/models.py:140-143 | uploads keep validity, and every evidence type is 'uso' or 'devolucion' |
| GestionViews.EliminarEvidencia | STR_Chromebook/Gestion_Equipos/views/gestion.py:334-353 | succeeds iff admin and the record exists, and then removes exactly that record |
| GestionViews.RemovalsValid | STR_Chromebook/Gestion_Equipos/views/gestion.py:317-353 | removing a supervisor row or an evidence record keeps validity and capacity |
| GestionViews.ActualizarGestion | STR_Chromebook/Gestion_Equipos/views/gestion.py:356-390 | notes kept when the key is absent; each timestamp set when given and cleared when missing or empty; an unparseable one fails with no change |
| GestionViews.ActualizarGestionValid | STR_Chromebook/Gestion_Equipos/views/gestion.py:356-390 | saving the management fields keeps validity and capacity |
| GestionViews.FinalizarReserva | STR_Chromebook/Gestion_Equipos/views/gestion.py:394-437 | only an exactly 'Aprobada' reservation is finalized; it becomes 'Finalizada', its rows stay, and `fecha_devolucion` is set to now only if unset |
| GestionViews.FinalizarReservaEffect | STR_Chromebook/Gestion_Equipos/views/gestion.py:412-417 | finalizing sets exactly the assigned devices to 'Disponible' and no other table changes |
| GestionViews.FinalizarReservaValid | STR_Chromebook/Gestion_Equipos/views/gestion.py:394-437 | finalizing keeps validity and capacity |
| GestionViews.ListedRackPassesCount | STR_Chromebook/Gestion_Equipos/views/gestion.py:106-121 | a rack listed as available (state 'Disponible' in any case, at least `needed` available devices) passes the count check of bulk assignment |
| GestionViews.ListedSupervisorAccepted | STR_Chromebook/Gestion_Equipos/views/gestion.py:130-135 | a listed supervisor is not yet assigned, so assigning them succeeds |
| CoreViews.CrearReserva | STR_Chromebook/Gestion_Equipos/views/core.py:26-72 | succeeds iff a known teacher submits an acceptable form, inserting one reservation under the next key |
| CoreViews.CrearReservaFields | STR_Chromebook/Gestion_Equipos/views/core.py:46-53 | the new reservation belongs to the session user, is 'Pendiente', and has its responsible person upper-cased |
| CoreViews.CrearReservaValid | STR_Chromebook/Gestion_Equipos/views/core.py:26-72 | creation keeps validity and capacity |
| CoreViews.MarcarCancelables | STR_Chromebook/Gestion_Equipos/views/core.py:98-114 | the loop's flags: one per reservation, set iff 'Pendiente', or 'Aprobada' with more than 24 hours to go |
| CoreViews.DeUsuario | STR_Chromebook/Gestion_Equipos/views/core.py:89-94 | exactly the reservations owned by that user |
| CoreViews.CancelarReserva | STR_Chromebook/Gestion_Equipos/views/core.py:124-180 | a blank reason is refused; success rejects only the user's own reservation, with reason '[CANCELADA POR DOCENTE] ' + reason |
| CoreViews.CancelMatchesFlag | STR_Chromebook/Gestion_Equipos/views/core.py:111-114 | the cancel handler succeeds iff the listing's flag is set, and names the reason for a refusal (too late, or the status) |
| CoreViews.CancelOnlyOwn | STR_Chromebook/Gestion_Equipos/views/core.py:142 | another teacher's reservation is not found and nothing changes |
| CoreViews.AprobarReserva | STR_Chromebook/Gestion_Equipos/views/core.py:268-287 | approval succeeds for an admin and an existing reservation, from any prior status, and changes only that status |
| CoreViews.RechazarReserva | STR_Chromebook/Gestion_Equipos/views/core.py:290-316 | rejection needs a non-blank reason and sets 'Rechazada' with that reason, from any prior status |
| CoreViews.ReviewValid | STR_Chromebook/Gestion_Equipos/views/core.py:268-316 | approve, reject and cancel keep validity and capacity |
| CoreViews.AprobarValid | STR_Chromebook/Gestion_Equipos/views/core.py:268-287 | approval keeps validity and capacity |
| CoreViews.RechazarValid | STR_Chromebook/Gestion_Equipos/views/core.py:290-316 | rejection keeps validity and capacity |
| CoreViews.CancelarValid | STR_Chromebook/Gestion_Equipos/views/core.py:124-180 | cancellation keeps validity and capacity |
| CoreViews.RackOf | STR_Chromebook/Gestion_Equipos/views/core.py:447 | an absent or zero rack id means no rack; an unknown one is an error |
| CoreViews.EstadoOf | STR_Chromebook/Gestion_Equipos/views/core.py:446 | the status lookup succeeds iff the key exists |
| CoreViews.CrearEquipo | STR_Chromebook/Gestion_Equipos/views/core.py:431-474 | a duplicate serial or a full rack is refused and nothing is created; success appends one device with the submitted fields |
| CoreViews.CrearEquipoValid | STR_Chromebook/Gestion_Equipos/views/core.py:442-467 | creation keeps validity, serial uniqueness, and every rack's count ≤ its capacity |
| CoreViews.EditarEquipo | STR_Chromebook/Gestion_Equipos/views/core.py:477-522 | a serial held by another device is refused; capacity is checked only when the rack changes; success changes only that device |
| CoreViews.EditarEquipoValid | STR_Chromebook/Gestion_Equipos/views/core.py:489-515 | editing keeps validity and the capacity invariant |
| CoreViews.EliminarEquipo | STR_Chromebook/Gestion_Equipos/views/core.py:525-545 | soft delete: the device stays with its rack and gets a status labelled 'Dado de baja' |
| CoreViews.EliminarEquipoValid | STR_Chromebook/Gestion_Equipos/views/core.py:533-538 | the soft delete keeps validity and capacity |
| Store.NewRowsStep | STR_Chromebook/Gestion_Equipos/views/gestion.py:199-204 | one more loop iteration adds exactly one row under the next key |
| Store.LendingStore.constructor | STR_Chromebook/Gestion_Equipos/models.py:1-195 | an empty store over a catalog is valid and within capacity |
| Store.LendingStore.GetOrCreateEstado | STR_Chromebook/Gestion_Equipos/views/gestion.py:196 | the store's state and answer are those of get_or_create |
| Store.LendingStore.BulkSetEstado | STR_Chromebook/Gestion_Equipos/views/gestion.py:243 | exactly the named devices get the status |
| Store.LendingStore.SelectDisponibles | STR_Chromebook/Gestion_Equipos/views/gestion.py:187-190 | the loop returns the first `n` available devices of the rack |
| Store.LendingStore.AsignarRack | STR_Chromebook/Gestion_Equipos/views/gestion.py:166-215 | new state and answer are those of the rack bulk assignment |
| Store.LendingStore.BuildRows | STR_Chromebook/Gestion_Equipos/views/gestion.py:198-204 | the loop builds exactly the rows `NewRows` describes |
| Store.LendingStore.CommitRows | STR_Chromebook/Gestion_Equipos/views/gestion.py:196-208 | new state and answer are those of the commit |
| Store.LendingStore.DesasignarTodos | STR_Chromebook/Gestion_Equipos/views/gestion.py:218-250 | new state and answer are those of unassign-all |
| Store.LendingStore.DesasignarEquipo | STR_Chromebook/Gestion_Equipos/views/gestion.py:253-274 | new state and answer are those of unassign-one |
| Store.LendingStore.AsignarSupervisor | STR_Chromebook/Gestion_Equipos/views/gestion.py:277-314 | new state and answer are those of supervisor assignment |
| Store.LendingStore.DesasignarSupervisor | STR_Chromebook/Gestion_Equipos/views/gestion.py:317-331 | new state and answer are those of supervisor removal |
| Store.LendingStore.SubirEvidencia | STR_Chromebook/Gestion_Equipos/views/gestion.py:85-97 | new state and answer are those of the evidence upload |
| Store.LendingStore.EliminarEvidencia | STR_Chromebook/Gestion_Equipos/views/gestion.py:334-353 | new state and answer are those of evidence removal |
| Store.LendingStore.ActualizarGestion | STR_Chromebook/Gestion_Equipos/views/gestion.py:356-390 | new state and answer are those of the management update |
| Store.LendingStore.FinalizarReserva | STR_Chromebook/Gestion_Equipos/views/gestion.py:394-437 | new state and answer are those of finalization |
| Store.LendingStore.CrearReserva | STR_Chromebook/Gestion_Equipos/views/core.py:26-72 | new state and answer are those of reservation creation |
| Store.LendingStore.CancelarReserva | STR_Chromebook/Gestion_Equipos/views/core.py:124-180 | new state and answer are those of the teacher's cancel |
| Store.LendingStore.AprobarReserva | STR_Chromebook/Gestion_Equipos/views/core.py:268-287 | new state and answer are those of approval |
| Store.LendingStore.RechazarReserva | STR_Chromebook/Gestion_Equipos/views/core.py:290-316 | new state and answer are those of rejection |
| Store.LendingStore.CrearEquipo | STR_Chromebook/Gestion_Equipos/views/core.py:431-474 | new state and answer are those of device creation |
| Store.LendingStore.EditarEquipo | STR_Chromebook/Gestion_Equipos/views/core.py:477-522 | new state and answer are those of device editing |
| Store.LendingStore.EliminarEquipo | STR_Chromebook/Gestion_Equipos/views/core.py:525-545 | new state and answer are those of the soft delete |
| Reportes.PeriodoPagina | STR_Chromebook/Gestion_Equipos/views/reportes.py:38-46 | the page's period is either the current one or what the month parameter parses to |
| Reportes.PeriodoDecimal | STR_Chromebook/Gestion_Equipos/views/reportes.py:41-43 | integer parameters are taken as given |
| Reportes.PeriodoFallback | STR_Chromebook/Gestion_Equipos/views/reportes.py:44-46 | a month that is not an integer falls back to the current month and year |
| Reportes.PeriodoDefault | STR_Chromebook/Gestion_Equipos/views/reportes.py:38-39 | absent parameters mean the current month and year |
| Reportes.PeriodoExcel | STR_Chromebook/Gestion_Equipos/views/reportes.py:105-106 | the download's period exists iff both parameters are integers (no fallback), and then equals the page's |
| Reportes.Tabla | STR_Chromebook/Gestion_Equipos/views/reportes.py:48-51 | the reservation table in key order holds only table rows |
| Reportes.DelPeriodo | STR_Chromebook/Gestion_Equipos/views/reportes.py:48-51 | only reservations whose `fecha_uso` has the selected month and year are kept |
| Reportes.TablaCuenta | STR_Chromebook/Gestion_Equipos/views/reportes.py:48-53 | the filtered list has one element per matching key |
| Reportes.TotalDelPeriodo | STR_Chromebook/Gestion_Equipos/views/reportes.py:53 | the month's total is the number of reservations in that month |
| Reportes.ConteosAcotados | STR_Chromebook/Gestion_Equipos/views/reportes.py:53-56 | exact-match status counts sum to at most the total |
| Reportes.FinalizadaSoloEnTotal | STR_Chromebook/Gestion_Equipos/views/reportes.py:53-56 | a 'Finalizada' reservation adds to the total and to none of the three status counts |
| Reportes.SumaTodas | STR_Chromebook/Gestion_Equipos/views/reportes.py:58 | every reservation, whatever its status, adds its quantity to the sum |
| Reportes.Distintos | STR_Chromebook/Gestion_Equipos/views/reportes.py:60-64 | the distinct names of a list, each once |
| Reportes.Contados | STR_Chromebook/Gestion_Equipos/views/reportes.py:63 | one group per distinct name, holding its number of occurrences |
| Reportes.Insertar | STR_Chromebook/Gestion_Equipos/views/reportes.py:64 | insertion keeps the groups in descending count and adds only the new group |
| Reportes.InsertarMultiset | STR_Chromebook/Gestion_Equipos/views/reportes.py:64 | insertion adds exactly that group |
| Reportes.OrdenarDesc | STR_Chromebook/Gestion_Equipos/views/reportes.py:64 | `order_by('-cantidad')`: descending count |
| Reportes.OrdenarMultiset | STR_Chromebook/Gestion_Equipos/views/reportes.py:64 | sorting is a permutation |
| Reportes.InsertarTotal | STR_Chromebook/Gestion_Equipos/views/reportes.py:64 | insertion adds the group's count to the total |
| Reportes.InsertarDistintos | STR_Chromebook/Gestion_Equipos/views/reportes.py:60-64 | inserting a new name keeps names distinct |
| Reportes.OrdenarTotal | STR_Chromebook/Gestion_Equipos/views/reportes.py:64 | sorting keeps the total |
| Reportes.OrdenarDistintos | STR_Chromebook/Gestion_Equipos/views/reportes.py:60-64 | sorting keeps names distinct |
| Reportes.AgruparEsRanking | STR_Chromebook/Gestion_Equipos/views/reportes.py:60-64 | the grouping has each occurring name once, with its true count, in descending count |
| Reportes.SumaCubre | STR_Chromebook/Gestion_Equipos/views/reportes.py:60-64 | the occurrences of all distinct names add up to the list's length |
| Reportes.TotalContados | STR_Chromebook/Gestion_Equipos/views/reportes.py:63 | the groups' counts add up to the occurrences counted |
| Reportes.AgruparSuma | STR_Chromebook/Gestion_Equipos/views/reportes.py:60-64 | per-career counts sum to the number of reservations |
| Reportes.Primeros | STR_Chromebook/Gestion_Equipos/views/reportes.py:70 | the slice `[:n]` |
| Reportes.PrimerosDiez | STR_Chromebook/Gestion_Equipos/views/reportes.py:66-70 | the requester ranking has at most 10 entries, descending, each with its true count |
| Reportes.Carreras | STR_Chromebook/Gestion_Equipos/views/reportes.py:61 | one career name per reservation |
| Reportes.Docentes | STR_Chromebook/Gestion_Equipos/views/reportes.py:67 | one requester name per reservation |
| Reportes.EnUsoCuenta | STR_Chromebook/Gestion_Equipos/views/reportes.py:72-74 | the in-use figure is the number of devices labelled exactly 'En uso' |
| Reportes.VerReportes | STR_Chromebook/Gestion_Equipos/views/reportes.py:26-91 | a logged-in, known administrator sees the report iff the year is within 1..9999, which the `fecha_uso__year` lookup needs, and the month indexes `month_name`; its period is the page's period |
| Reportes.VerReportesCorrecto | STR_Chromebook/Gestion_Equipos/views/reportes.py:48-74 | total = the month's reservations; status counts ≤ total; career ranking grouping all of them and summing to the total; top ten requesters with true counts; devices in use |
| Reportes.InsertarPorFecha | STR_Chromebook/Gestion_Equipos/views/reportes.py:131 | insertion keeps ascending (date, start) order and adds only the new row |
| Reportes.InsertarPorFechaMultiset | STR_Chromebook/Gestion_Equipos/views/reportes.py:131 | insertion adds exactly that row |
| Reportes.OrdenarPorFecha | STR_Chromebook/Gestion_Equipos/views/reportes.py:131 | `order_by('fecha_uso', 'hora_inicio')`: ascending order |
| Reportes.OrdenarPorFechaMultiset | STR_Chromebook/Gestion_Equipos/views/reportes.py:131 | the sorted rows are a permutation of the month's |
| Reportes.ContarConcat | STR_Chromebook/Gestion_Equipos/views/reportes.py:137-145 | counts and sums split over concatenation |
| Reportes.OrdenarPorFechaCuenta | STR_Chromebook/Gestion_Equipos/views/reportes.py:137-143 | sorting changes no status count |
| Reportes.Pad | STR_Chromebook/Gestion_Equipos/views/reportes.py:162 | zero-padding to a width gives at least that many characters |
| Reportes.PadValue | STR_Chromebook/Gestion_Equipos/views/reportes.py:162-164 | padding keeps the number's value |
| Reportes.Fila | STR_Chromebook/Gestion_Equipos/views/reportes.py:162-173 | a detail row has the 12 columns |
| Reportes.FilaCampos | STR_Chromebook/Gestion_Equipos/views/reportes.py:170-173 | the detail row shows the quantity, the responsible person, the phone and the status |
| Reportes.FilaNombres | STR_Chromebook/Gestion_Equipos/views/reportes.py:165-169 | columns 4-8 hold the teacher's full name, the career, the subject, the classroom's block and the classroom |
| Reportes.PadFits | STR_Chromebook/Gestion_Equipos/views/reportes.py:162-164 | a number below 10^w is padded to exactly w digits that read back as it |
| Reportes.FilaFecha | STR_Chromebook/Gestion_Equipos/views/reportes.py:162 | column 1 is `%d/%m/%Y`: ten characters, '/' at positions 2 and 5, digit groups reading as day, month and year |
| Reportes.HoraTexto | STR_Chromebook/Gestion_Equipos/views/reportes.py:163-164 | `%H:%M` is five characters with ':' at position 2 and digit groups reading as the hour (below 24) and the minute (below 60) |
| Reportes.FilaHoras | STR_Chromebook/Gestion_Equipos/views/reportes.py:163-164 | columns 2 and 3 are the start and end times as `%H:%M`, reading back as their hour and minute |
| Reportes.Cabecera | STR_Chromebook/Gestion_Equipos/views/reportes.py:117-158 | the sheet's head has 13 rows |
| Reportes.Filas | STR_Chromebook/Gestion_Equipos/views/reportes.py:160-179 | one sheet row per reservation |
| Reportes.HojaCabecera | STR_Chromebook/Gestion_Equipos/views/reportes.py:117-158 | a well-written sheet carries each head row at its row number |
| Reportes.HojaFila | STR_Chromebook/Gestion_Equipos/views/reportes.py:160-179 | each data row is written at `header_row + 1 + index` |
| Reportes.HojaEstadisticas | STR_Chromebook/Gestion_Equipos/views/reportes.py:133-145 | the sheet shows the statistics heading in A4 and the five figures in B5..B9 |
| Reportes.HojaDetalle | STR_Chromebook/Gestion_Equipos/views/reportes.py:170-173 | columns 9 to 12 of each data row are the reservation's values |
| Reportes.EscribirFila | STR_Chromebook/Gestion_Equipos/views/reportes.py:162-173 | the loop writes the row's values in columns 1.. and keeps every other cell |
| Reportes.EscribirFilas | STR_Chromebook/Gestion_Equipos/views/reportes.py:160-179 | the `data_row` loop writes every row at its row number, keeping the cells written before |
| Reportes.EscribirHoja | STR_Chromebook/Gestion_Equipos/views/reportes.py:117-179 | the written cells are exactly the head and the data rows |
| Reportes.DescargarReporteExcel | STR_Chromebook/Gestion_Equipos/views/reportes.py:94-190 | refused for non-admins, for non-integer parameters, a bad month, or a year outside 1..9999; otherwise the month's sheet with title and file name |
| Reportes.ExcelCoincide | STR_Chromebook/Gestion_Equipos/views/reportes.py:126-145 | the download's rows are the page's month's reservations, each once, in date order, with the page's counts and sum |
| Reportes.CabeceraEstadisticas | STR_Chromebook/Gestion_Equipos/views/reportes.py:133-145 | the statistics rows have the labels and the counts of the rows |
| Reportes.DescargaComoPagina | STR_Chromebook/Gestion_Equipos/views/reportes.py:137-145 | the spreadsheet's B5..B9 hold the page's total, approved, rejected, pending and quantity sum |
| Scenarios.TwoOfThreeRefused | STR_Chromebook/Gestion_Equipos/views/gestion.py:180-193 | three devices asked for and two available in the rack: refused as "2 available, 3 needed", database unchanged |
| Scenarios.CreatedAvailable | STR_Chromebook/Gestion_Equipos/views/core.py:431-474 | a device created in the rack with a 'Disponible' status adds one available device to that rack and touches no reservation, row or label |
| Scenarios.RackReachesCommit | STR_Chromebook/Gestion_Equipos/views/gestion.py:168-196 | with three devices available and three missing, every check before the insert passes and the first three are picked |
| Scenarios.CommitOk | STR_Chromebook/Gestion_Equipos/views/gestion.py:196-208 | with no row yet for the reservation and at most one 'En uso' label, the insert succeeds with one row per picked device |
| Scenarios.ThreeAssigned | STR_Chromebook/Gestion_Equipos/views/gestion.py:180-208 | three available devices: success with 3, three rows for the reservation, and each available rack device now reads 'En uso' |
| Scenarios.ThirdDeviceThenAssigned | STR_Chromebook/Gestion_Equipos/views/gestion.py:180-208 | after a third device is created in the rack, the request refused before succeeds with three rows and all three devices 'En uso' |
| Scenarios.EquiposChangeIncreasing | STR_Chromebook/Gestion_Equipos/views/core.py:461-467 | the created device, keyed by the next key, keeps the table in key order |
| Scenarios.CancelWindow | STR_Chromebook/Gestion_Equipos/views/core.py:150-172 | one hour ahead a pending reservation is cancelled with the prefixed reason and an approved one is refused; thirty hours ahead the approved one is cancelled |
| Scenarios.SerialTwice | STR_Chromebook/Gestion_Equipos/views/core.py:442-443 | a second device with an existing serial is refused, nothing changes, and the first device stays |

## Left out

- Reportes.PeriodoPagina: its contract states only that the period is the current one or the parsed month. The exact fallback cases are proved in PeriodoDecimal, PeriodoFallback and PeriodoDefault.
- Reportes.Pad: the contract gives the length and the value (PadValue), not the exact character layout.
- Reportes.OrdenarPorFecha: the database leaves ties in (date, start) in no fixed order; the model keeps them in key order.
- The page's listing `reservas_mes.order_by('-fecha_uso')` and the `meses`/`anios` lists are presentation only.
- A month number outside -13..12 (for example 13) makes `calendar.month_name` raise IndexError; the model answers `Err(InvalidParameter)`. Month 0 is accepted and has the empty name, as in Python.
- Text.Upper: maps ASCII letters and the Latin-1 letters whose upper case is one character. 'ß' is left unchanged, where Python's `upper()` gives "SS" and lengthens the text; characters outside Latin-1 are left unchanged too.
- Text.ParseInt: accepts surrounding whitespace, an optional sign, and ASCII digits with single underscores between them, as Python does; the non-ASCII decimal digits that Python's `int()` also accepts are refused.
- Names missing from the catalog read as the empty string in the report, where the ORM would follow a foreign key that always exists.
- Reservation keys at or above the key counter are skipped by the report's table order; the store never creates them.
- The spreadsheet's styling, merged cells, column widths and HTTP response. The `Workbook is None` branch depends on whether a library is installed.
- The A2 timestamp is a `generado` parameter, since it comes from the clock.
- Sheet titles longer than 31 characters, or holding characters the spreadsheet library forbids, are not refused by the model.
- Years below 1000 are written with four digits. A year outside 1..9999 makes the page and the download answer `Err(InvalidParameter)`, where the source raises ValueError while building the `fecha_uso__year` bounds.
- `api_asignar_equipo` is routed but not defined in the files modelled, so it is not modelled.
- HTTP method checks (`Método no permitido`), messages, redirects and the JSON error texts. Each error is a constructor of `Base.Error`.
- `json.loads` of the request body: the model receives the decoded fields, with `None` for absent keys.
- `get_object_or_404` and `DoesNotExist` both become `Err(NotFound)`.
- Concurrency and `transaction.atomic`: handlers run one at a time. The atomic handlers are modelled as leaving the database unchanged on error.
- Timezones and the float `total_seconds() / 3600`. Times are integer seconds, and the 24-hour test is `start - now > 86400`.
- The evidence photo file and `foto.delete`: only the record is modelled.
- The `fecha_registro` and `fecha_subida` timestamps.
- `max_length` of the device text fields: the device handlers write JSON values directly through `create` and `save`, without a form, and the model does not limit them.
- Store.LendingStore: its methods do not require or ensure `Valid`. Each method's contract is its specification function, and the `Valid` lemmas beside those functions prove preservation; carrying the invariant on every method made the frames too costly.
- Catalog deletions do not cascade into reservations: the catalog delete functions of `CoreModels` take and return a `Catalog` alone, not the `Db` that holds it.
- GestionViews.AsignarRack: the source slices an unordered query (`Equipo` declares no `ordering`), so the database may hand over any `needed` available devices of the rack; the model picks those with the lowest keys (Disponibles, Take, FirstInOrder, AsignarRackDevices, Picked, Store.LendingStore.SelectDisponibles). How many are picked, that they come from the rack and were available, that they become 'En uso' and that nothing else changes do not depend on that choice.
- GestionViews.SubirEvidencia: `EvidenciaReservaForm` is imported by views/gestion.py:22 but not defined in Gestion_Equipos/forms.py, so the upload's validation cannot be read from the repository. The model assumes the form accepts exactly a `tipo_evidencia` among the model's choices (models.py:140-143), with any description; the photo is not modelled.
- CoreForms.UsuarioAdminForm.IsValid: the role is always submitted as a key, so an empty role choice is not modelled; uniqueness compares exact text, whatever collation the database uses.
- The page's JavaScript, the admin-panel configuration, URL routing, the older `views.py` and the login views are not part of this model.
