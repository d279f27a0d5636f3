/** The administrator's user form of STR_Chromebook/core/forms.py: the
    model's own fields with their required, length, choice and uniqueness
    checks, two password fields that are required only for a user not yet
    saved, the cross-field check in `clean`, and `save`, which re-encodes
    the password only when one was typed. */
module CoreForms {
  import opened Base
  import opened Text
  import opened CoreModels

  /** The Meta fields of the form, in their declared order. */
  datatype Campo = Username | NomCompleto | Cedula | Telefono | Email | IdTipoUsuario | IdTitulo

  datatype FormError =
    | Required(campo: Campo)                 // 'Este campo es obligatorio.'
    | TooLong(campo: Campo, max: nat)        // MaxLengthValidator
    | InvalidChoice(campo: Campo)            // ModelChoiceField with an unknown key
    | NotUnique(campo: Campo)                // validate_unique on a unique column
    | PasswordInputRequired
    | PasswordConfirmRequired
    | PasswordMismatch      // 'Las contraseñas no coinciden.'
    | PasswordTooShort      // 'La contraseña debe tener al menos 4 caracteres.'

  /** The value a CharField puts in `cleaned_data`: the stripped text, or
      nothing when the field is required and left blank (its error is
      reported instead). */
  function CleanChar(raw: string, required: bool): (r: Option<string>)
    ensures r.None? <==> required && AllSpace(raw)
    ensures r.Some? ==> r.value == Strip(raw)
  {
    StripBlank(raw);
    if required && Strip(raw) == [] then None else Some(Strip(raw))
  }

  /** Python truthiness of `cleaned_data.get(name)`. */
  predicate Truthy(v: Option<string>) {
    v.Some? && v.value != []
  }

  /** `clean`: the first ValidationError it raises, if any. The two values
      are compared as they came out of the fields, a missing value included. */
  function CleanError(password: Option<string>, confirm: Option<string>): (r: Option<FormError>)
    ensures r == Some(PasswordMismatch) <==> (Truthy(password) || Truthy(confirm)) && password != confirm
    ensures r == Some(PasswordTooShort) <==> Truthy(password) && password == confirm && |password.value| < 4
    ensures r.Some? ==> r == Some(PasswordMismatch) || r == Some(PasswordTooShort)
  {
    if Truthy(password) || Truthy(confirm) then
      if password != confirm then Some(PasswordMismatch)
      else if |password.value| < 4 then Some(PasswordTooShort)
      else None
    else None
  }

  /** All errors of the password part of the form: the per-field required
      errors in field order, then the error of `clean`. */
  function PasswordErrors(input: string, confirm: string, inputRequired: bool, confirmRequired: bool): seq<FormError> {
    var p := CleanChar(input, inputRequired);
    var c := CleanChar(confirm, confirmRequired);
    (if p.None? then [PasswordInputRequired] else [])
    + (if c.None? then [PasswordConfirmRequired] else [])
    + (match CleanError(p, c) case Some(e) => [e] case None => [])
  }

  /** The form validates exactly when every required password field is
      filled, the two stripped entries agree, and a non-empty password has
      at least four characters. */
  lemma PasswordErrorsEmpty(input: string, confirm: string, inputRequired: bool, confirmRequired: bool)
    requires inputRequired == confirmRequired
    ensures PasswordErrors(input, confirm, inputRequired, confirmRequired) == [] <==>
              && (inputRequired ==> Strip(input) != [] && Strip(confirm) != [])
              && Strip(input) == Strip(confirm)
              && (Strip(input) == [] || |Strip(input)| >= 4)
  {
    StripBlank(input);
    StripBlank(confirm);
  }

  /** A mismatch is reported whenever either entry is non-empty and they differ. */
  lemma MismatchRejected(input: string, confirm: string, required: bool)
    requires Strip(input) != [] || Strip(confirm) != []
    requires Strip(input) != Strip(confirm)
    ensures PasswordMismatch in PasswordErrors(input, confirm, required, required)
  {
    StripBlank(input);
    StripBlank(confirm);
    var p := CleanChar(input, required);
    var c := CleanChar(confirm, required);
    assert CleanError(p, c) == Some(PasswordMismatch);
  }

  // ---------------------------------------------------------------
  // The Meta fields: username, nom_completo, cedula, telefono, email,
  // id_tipo_usuario, id_titulo
  // ---------------------------------------------------------------

  /** A required model CharField of `max_length` max: the stripped text must
      be non-empty, and only then is its length checked. */
  function CharErrors(campo: Campo, raw: string, max: nat): (r: seq<FormError>)
    ensures r == [] <==> Strip(raw) != [] && |Strip(raw)| <= max
    ensures r != [] ==> |r| == 1 && r[0] in {Required(campo), TooLong(campo, max)}
  {
    if Strip(raw) == [] then [Required(campo)]
    else if |Strip(raw)| > max then [TooLong(campo, max)]
    else []
  }

  /** The Meta fields as `cleaned_data` holds them: each text stripped. The
      password column is not a form field and is passed through. */
  function Cleaned(d: Usuario): Usuario {
    d.(nomCompleto := Strip(d.nomCompleto), cedula := Strip(d.cedula), telefono := Strip(d.telefono),
       email := Strip(d.email), username := Strip(d.username))
  }

  /** Another saved user than `self` has this username. */
  predicate UsernameTaken(usuarios: map<UserId, Usuario>, self: Option<UserId>, name: string) {
    exists k | k in usuarios && Some(k) != self :: usuarios[k].username == name
  }

  /** Another saved user than `self` has this cedula. */
  predicate CedulaTaken(usuarios: map<UserId, Usuario>, self: Option<UserId>, cedula: string) {
    exists k | k in usuarios && Some(k) != self :: usuarios[k].cedula == cedula
  }

  /** The errors of the Meta fields, in field order, then those of
      `validate_unique`, which skips a field that already has an error. */
  function MetaErrors(d: Usuario, cat: Catalog, self: Option<UserId>): seq<FormError> {
    var u := Cleaned(d);
    CharErrors(Username, d.username, 10)
    + CharErrors(NomCompleto, d.nomCompleto, 150)
    + CharErrors(Cedula, d.cedula, 10)
    + CharErrors(Telefono, d.telefono, 10)
    + CharErrors(Email, d.email, 100)
    + (if d.rol !in cat.roles then [InvalidChoice(IdTipoUsuario)] else [])
    + (if d.titulo.Some? && d.titulo.value !in cat.titulos then [InvalidChoice(IdTitulo)] else [])
    + (if CharErrors(Username, d.username, 10) == [] && UsernameTaken(cat.usuarios, self, u.username)
       then [NotUnique(Username)] else [])
    + (if CharErrors(Cedula, d.cedula, 10) == [] && CedulaTaken(cat.usuarios, self, u.cedula)
       then [NotUnique(Cedula)] else [])
  }

  /** The Meta fields validate exactly when every text is non-blank and
      within its length, both references exist, and no other user holds
      the username or the cedula. */
  lemma MetaErrorsEmpty(d: Usuario, cat: Catalog, self: Option<UserId>)
    ensures MetaErrors(d, cat, self) == [] <==>
              && 0 < |Strip(d.username)| <= 10 && 0 < |Strip(d.nomCompleto)| <= 150
              && 0 < |Strip(d.cedula)| <= 10 && 0 < |Strip(d.telefono)| <= 10
              && 0 < |Strip(d.email)| <= 100
              && d.rol in cat.roles && (d.titulo.Some? ==> d.titulo.value in cat.titulos)
              && !UsernameTaken(cat.usuarios, self, Strip(d.username))
              && !CedulaTaken(cat.usuarios, self, Strip(d.cedula))
  {
  }

  /** Fields that validate are accepted by the database: a row saved under
      the form's own key, or under a fresh one for a new user, with any
      password, raises no IntegrityError. */
  lemma ValidMetaCommits(d: Usuario, cat: Catalog, self: Option<UserId>, id: UserId, password: string)
    requires MetaErrors(d, cat, self) == []
    requires if self.Some? then id == self.value else id !in cat.usuarios
    ensures SaveUsuario(cat, id, Cleaned(d).(password := password)).Ok?
  {
    MetaErrorsEmpty(d, cat, self);
    var u := Cleaned(d).(password := password);
    forall k | k in cat.usuarios && k != id
      ensures cat.usuarios[k].username != u.username && cat.usuarios[k].cedula != u.cedula
    {
      assert Some(k) != self;
    }
  }

  class UsuarioAdminForm {
    /** The model object being edited or created. */
    const instance: UsuarioInstance
    /** The submitted Meta fields (username, name, cedula, phone, email, role,
        title), as typed; their `password` column is not a form field and is
        ignored. */
    const data: Usuario
    /** Raw text of `password_input` and `password_confirm`. */
    const passwordInput: string
    const passwordConfirm: string
    var passwordInputRequired: bool
    var passwordConfirmRequired: bool

    /** `__init__`: both password fields become required for a user that has
        no primary key yet. */
    constructor (instance: UsuarioInstance, data: Usuario, passwordInput: string, passwordConfirm: string)
      ensures this.instance == instance && this.data == data
      ensures this.passwordInput == passwordInput && this.passwordConfirm == passwordConfirm
      ensures passwordInputRequired == passwordConfirmRequired == instance.pk.None?
    {
      this.instance := instance;
      this.data := data;
      this.passwordInput := passwordInput;
      this.passwordConfirm := passwordConfirm;
      passwordInputRequired := false;
      passwordConfirmRequired := false;
      new;
      if instance.pk.None? {
        passwordInputRequired := true;
        passwordConfirmRequired := true;
      }
    }

    /** All errors of the form against the saved users `cat`: the Meta
        fields, the password fields, `clean`, then `validate_unique`, which
        leaves out the instance's own row. */
    function Errors(cat: Catalog): seq<FormError>
      reads this, instance
    {
      MetaErrors(data, cat, instance.pk)
      + PasswordErrors(passwordInput, passwordConfirm, passwordInputRequired, passwordConfirmRequired)
    }

    /** `is_valid()`: no field error, no password error, no clash with
        another user's username or cedula. */
    method IsValid(cat: Catalog) returns (ok: bool)
      ensures ok <==> Errors(cat) == []
      ensures ok ==> MetaErrors(data, cat, instance.pk) == []
                     && PasswordErrors(passwordInput, passwordConfirm, passwordInputRequired, passwordConfirmRequired) == []
      ensures ok ==> !UsernameTaken(cat.usuarios, instance.pk, Strip(data.username))
                     && !CedulaTaken(cat.usuarios, instance.pk, Strip(data.cedula))
    {
      ok := Errors(cat) == [];
      if ok {
        MetaErrorsEmpty(data, cat, instance.pk);
      }
    }

    /** `save()` followed by the commit into the catalog. The cleaned Meta
        fields are copied onto the instance; the password is re-encoded only
        when `password_input` is non-empty after stripping, and otherwise
        keeps the instance's stored value. A user without a primary key is
        inserted under `newId`. An invalid form is refused and nothing
        changes; a valid one is always accepted by the database. */
    method Save(h: Hasher, salt: string, cat: Catalog, newId: UserId) returns (r: Result<Catalog>)
      requires newId !in cat.usuarios
      modifies instance
      ensures old(Errors(cat)) != [] ==> r == Err(InvalidForm) && instance.row == old(instance.row) && instance.pk == old(instance.pk)
      ensures old(Errors(cat)) == [] ==>
                && instance.row == (if Strip(passwordInput) != []
                                    then WithPassword(Cleaned(data).(password := old(instance.row.password)), h, Strip(passwordInput), salt)
                                    else Cleaned(data).(password := old(instance.row.password)))
                && instance.pk.Some?
                && instance.pk.value == (if old(instance.pk).Some? then old(instance.pk).value else newId)
                && r == SaveUsuario(cat, instance.pk.value, instance.row)
                && r.Ok?
      ensures r.Ok? && Sound(h) && Strip(passwordInput) != [] ==>
                instance.CheckPassword(h, Strip(passwordInput))
    {
      if Errors(cat) != [] {
        return Err(InvalidForm);
      }
      ghost var self := instance.pk;
      instance.row := Cleaned(data).(password := instance.row.password);
      var password := CleanChar(passwordInput, passwordInputRequired);
      if password.Some? && password.value != [] {
        instance.SetPassword(h, password.value, salt);
      }
      if instance.pk.None? {
        instance.pk := Some(newId);
      }
      ValidMetaCommits(data, cat, self, instance.pk.value, instance.row.password);
      r := SaveUsuario(cat, instance.pk.value, instance.row);
    }
  }

  /** A user saved through the form with a typed password can log in with it. */
  lemma SavedPasswordChecks(cat: Catalog, id: UserId, u: Usuario, h: Hasher, raw: string, salt: string)
    requires Sound(h)
    requires SaveUsuario(cat, id, WithPassword(u, h, raw, salt)).Ok?
    ensures PasswordMatches(SaveUsuario(cat, id, WithPassword(u, h, raw, salt)).value.usuarios[id], h, raw)
  {
    SetThenCheck(u, h, raw, salt);
  }
}
