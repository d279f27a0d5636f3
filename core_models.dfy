/** The catalog tables of STR_Chromebook/core/models.py: roles, titles,
    users, faculties, careers, subjects, teacher-career links, buildings,
    classrooms, and the rack record. The catalog is a value; each ORM
    deletion rule (PROTECT, CASCADE, SET_NULL) and each uniqueness
    constraint is a function from the old catalog to the new one or to the
    error the database raises. */
module CoreModels {
  import opened Base

  type RoleId = nat
  type TituloId = nat
  type UserId = nat
  type FacultadId = nat
  type CarreraId = nat
  type AsignaturaId = nat
  type DocenteCarreraId = nat
  type BloqueId = nat
  type AulaId = nat
  type RackId = nat

  /** Tb_USUARIO: `cedula` and `username` are unique; `rol` is PROTECTed,
      `titulo` is SET_NULL on delete. `password` holds the encoded hash. */
  datatype Usuario = Usuario(
    nomCompleto: string, cedula: string, telefono: string, email: string,
    username: string, password: string,
    rol: RoleId, titulo: Option<TituloId>)

  datatype Carrera = Carrera(nomCarrera: string, facultad: FacultadId)

  datatype DocenteCarrera = DocenteCarrera(usuario: UserId, carrera: CarreraId)

  datatype Aula = Aula(nomAula: string, bloque: BloqueId)

  /** Tb_RACK. The capacities are plain integers in the source. */
  datatype Rack = Rack(nomRack: string, ubicacion: string, capacidadTotal: int,
                       capacidadFunc: int, estadoRack: string)

  datatype Catalog = Catalog(
    roles: map<RoleId, string>,           // TipoUsuario.nom_rol
    titulos: map<TituloId, string>,       // TituloProfesional.nom_titulo
    usuarios: map<UserId, Usuario>,
    facultades: map<FacultadId, string>,
    carreras: map<CarreraId, Carrera>,
    asignaturas: map<AsignaturaId, string>,
    docenteCarreras: map<DocenteCarreraId, DocenteCarrera>,
    bloques: map<BloqueId, string>,
    aulas: map<AulaId, Aula>)

  // ---------------------------------------------------------------
  // Integrity of the catalog
  // ---------------------------------------------------------------

  ghost predicate ForeignKeysOk(c: Catalog) {
    && (forall u | u in c.usuarios :: c.usuarios[u].rol in c.roles)
    && (forall u | u in c.usuarios :: c.usuarios[u].titulo.Some? ==> c.usuarios[u].titulo.value in c.titulos)
    && (forall k | k in c.carreras :: c.carreras[k].facultad in c.facultades)
    && (forall k | k in c.docenteCarreras :: c.docenteCarreras[k].usuario in c.usuarios)
    && (forall k | k in c.docenteCarreras :: c.docenteCarreras[k].carrera in c.carreras)
    && (forall k | k in c.aulas :: c.aulas[k].bloque in c.bloques)
  }

  /** Some user other than `except` already has this username or this cedula. */
  predicate Clashes(usuarios: map<UserId, Usuario>, except: UserId, u: Usuario) {
    exists k | k in usuarios && k != except ::
      usuarios[k].username == u.username || usuarios[k].cedula == u.cedula
  }

  /** `username` and `cedula` are each unique across users. */
  ghost predicate UniqueUsers(usuarios: map<UserId, Usuario>) {
    forall a, b | a in usuarios && b in usuarios && a != b ::
      usuarios[a].username != usuarios[b].username && usuarios[a].cedula != usuarios[b].cedula
  }

  /** unique_together ('id_usuario', 'id_carrera'). */
  ghost predicate UniquePairs(dcs: map<DocenteCarreraId, DocenteCarrera>) {
    forall a, b | a in dcs && b in dcs && a != b :: dcs[a] != dcs[b]
  }

  ghost predicate Valid(c: Catalog) {
    ForeignKeysOk(c) && UniqueUsers(c.usuarios) && UniquePairs(c.docenteCarreras)
  }

  // ---------------------------------------------------------------
  // Lookups
  // ---------------------------------------------------------------

  /** `usuario.id_tipo_usuario.nom_rol`, or None when the user does not exist. */
  function RoleLabel(c: Catalog, uid: UserId): (r: Option<string>)
    requires Valid(c)
    ensures r.Some? <==> uid in c.usuarios
    ensures r.Some? ==> r.value == c.roles[c.usuarios[uid].rol]
  {
    if uid in c.usuarios then Some(c.roles[c.usuarios[uid].rol]) else None
  }

  // ---------------------------------------------------------------
  // Deletion rules
  // ---------------------------------------------------------------

  predicate RoleInUse(c: Catalog, id: RoleId) {
    exists u | u in c.usuarios :: c.usuarios[u].rol == id
  }

  /** Deleting a TipoUsuario: PROTECT while any user has that role. */
  function DeleteTipoUsuario(c: Catalog, id: RoleId): (r: Result<Catalog>)
    ensures r.Err? <==> id !in c.roles || RoleInUse(c, id)
    ensures r.Err? && id in c.roles ==> r.error == ProtectedReference
    ensures r.Ok? ==> r.value.roles.Keys == c.roles.Keys - {id}
                      && r.value == c.(roles := r.value.roles)
    ensures r.Ok? && Valid(c) ==> Valid(r.value)
  {
    if id !in c.roles then Err(NotFound)
    else if RoleInUse(c, id) then Err(ProtectedReference)
    else Ok(c.(roles := c.roles - {id}))
  }

  /** Deleting a TituloProfesional: the users that held it keep everything
      except their title, which becomes none. */
  function DeleteTitulo(c: Catalog, id: TituloId): (r: Result<Catalog>)
    ensures r.Err? <==> id !in c.titulos
    ensures r.Ok? ==> && r.value.titulos.Keys == c.titulos.Keys - {id}
                      && r.value.usuarios.Keys == c.usuarios.Keys
                      && (forall u | u in c.usuarios ::
                            r.value.usuarios[u] == c.usuarios[u].(titulo :=
                              if c.usuarios[u].titulo == Some(id) then None else c.usuarios[u].titulo))
                      && r.value == c.(titulos := r.value.titulos, usuarios := r.value.usuarios)
  {
    if id !in c.titulos then Err(NotFound)
    else
      var us := map u | u in c.usuarios ::
        if c.usuarios[u].titulo == Some(id) then c.usuarios[u].(titulo := None) else c.usuarios[u];
      Ok(c.(titulos := c.titulos - {id}, usuarios := us))
  }

  /** Clearing a deleted title from its holders keeps the catalog valid. */
  lemma DeleteTituloValid(c: Catalog, id: TituloId)
    requires Valid(c) && DeleteTitulo(c, id).Ok?
    ensures Valid(DeleteTitulo(c, id).value)
  {
    var d := DeleteTitulo(c, id).value;
    forall u | u in d.usuarios
      ensures d.usuarios[u].rol in d.roles
      ensures d.usuarios[u].titulo.Some? ==> d.usuarios[u].titulo.value in d.titulos
    {
      assert d.usuarios[u].rol == c.usuarios[u].rol;
    }
    assert ForeignKeysOk(d);
    forall a, b | a in d.usuarios && b in d.usuarios && a != b
      ensures d.usuarios[a].username != d.usuarios[b].username
      ensures d.usuarios[a].cedula != d.usuarios[b].cedula
    {
      assert d.usuarios[a].username == c.usuarios[a].username && d.usuarios[a].cedula == c.usuarios[a].cedula;
      assert d.usuarios[b].username == c.usuarios[b].username && d.usuarios[b].cedula == c.usuarios[b].cedula;
    }
  }

  /** Deleting a user removes its DocenteCarrera rows (CASCADE) and nothing
      else of the catalog. */
  function DeleteUsuario(c: Catalog, id: UserId): (r: Result<Catalog>)
    ensures r.Err? <==> id !in c.usuarios
    ensures r.Ok? ==> && r.value.usuarios.Keys == c.usuarios.Keys - {id}
                      && (forall k :: k in r.value.docenteCarreras <==>
                            k in c.docenteCarreras && c.docenteCarreras[k].usuario != id)
                      && (forall k | k in r.value.docenteCarreras :: r.value.docenteCarreras[k] == c.docenteCarreras[k])
                      && r.value == c.(usuarios := r.value.usuarios, docenteCarreras := r.value.docenteCarreras)
  {
    if id !in c.usuarios then Err(NotFound)
    else
      var dcs := map k | k in c.docenteCarreras && c.docenteCarreras[k].usuario != id :: c.docenteCarreras[k];
      Ok(c.(usuarios := c.usuarios - {id}, docenteCarreras := dcs))
  }

  /** Removing a user together with its links keeps the catalog valid. */
  lemma DeleteUsuarioValid(c: Catalog, id: UserId)
    requires Valid(c) && DeleteUsuario(c, id).Ok?
    ensures Valid(DeleteUsuario(c, id).value)
  {
    var d := DeleteUsuario(c, id).value;
    assert d.roles == c.roles && d.titulos == c.titulos && d.carreras == c.carreras;
    assert d.facultades == c.facultades && d.aulas == c.aulas && d.bloques == c.bloques;
    forall k | k in d.docenteCarreras
      ensures d.docenteCarreras[k].usuario in d.usuarios
      ensures d.docenteCarreras[k].carrera in d.carreras
    {
      assert d.docenteCarreras[k] == c.docenteCarreras[k];
    }
    forall k | k in d.usuarios
      ensures d.usuarios[k] == c.usuarios[k]
    {
    }
  }

  predicate FacultadInUse(c: Catalog, id: FacultadId) {
    exists k | k in c.carreras :: c.carreras[k].facultad == id
  }

  /** Deleting a Facultad: PROTECT while any career belongs to it. */
  function DeleteFacultad(c: Catalog, id: FacultadId): (r: Result<Catalog>)
    ensures r.Err? <==> id !in c.facultades || FacultadInUse(c, id)
    ensures r.Err? && id in c.facultades ==> r.error == ProtectedReference
    ensures r.Ok? ==> r.value.facultades.Keys == c.facultades.Keys - {id}
                      && r.value == c.(facultades := r.value.facultades)
    ensures r.Ok? && Valid(c) ==> Valid(r.value)
  {
    if id !in c.facultades then Err(NotFound)
    else if FacultadInUse(c, id) then Err(ProtectedReference)
    else Ok(c.(facultades := c.facultades - {id}))
  }

  /** Deleting a career removes its DocenteCarrera rows (CASCADE). */
  function DeleteCarrera(c: Catalog, id: CarreraId): (r: Result<Catalog>)
    ensures r.Err? <==> id !in c.carreras
    ensures r.Ok? ==> && r.value.carreras.Keys == c.carreras.Keys - {id}
                      && (forall k :: k in r.value.docenteCarreras <==>
                            k in c.docenteCarreras && c.docenteCarreras[k].carrera != id)
                      && (forall k | k in r.value.docenteCarreras :: r.value.docenteCarreras[k] == c.docenteCarreras[k])
                      && r.value == c.(carreras := r.value.carreras, docenteCarreras := r.value.docenteCarreras)
  {
    if id !in c.carreras then Err(NotFound)
    else
      var dcs := map k | k in c.docenteCarreras && c.docenteCarreras[k].carrera != id :: c.docenteCarreras[k];
      Ok(c.(carreras := c.carreras - {id}, docenteCarreras := dcs))
  }

  /** Removing a career together with its links keeps the catalog valid. */
  lemma DeleteCarreraValid(c: Catalog, id: CarreraId)
    requires Valid(c) && DeleteCarrera(c, id).Ok?
    ensures Valid(DeleteCarrera(c, id).value)
  {
    var d := DeleteCarrera(c, id).value;
    assert d.usuarios == c.usuarios && d.facultades == c.facultades;
    assert d.aulas == c.aulas && d.bloques == c.bloques;
    forall k | k in d.docenteCarreras
      ensures d.docenteCarreras[k].usuario in d.usuarios
      ensures d.docenteCarreras[k].carrera in d.carreras
    {
      assert d.docenteCarreras[k] == c.docenteCarreras[k];
    }
    forall k | k in d.carreras
      ensures d.carreras[k] == c.carreras[k]
    {
    }
  }

  /** Deleting a Bloque deletes exactly its classrooms (CASCADE). */
  function DeleteBloque(c: Catalog, id: BloqueId): (r: Result<Catalog>)
    ensures r.Err? <==> id !in c.bloques
    ensures r.Ok? ==> && r.value.bloques.Keys == c.bloques.Keys - {id}
                      && (forall a :: a in r.value.aulas <==> a in c.aulas && c.aulas[a].bloque != id)
                      && (forall a | a in r.value.aulas :: r.value.aulas[a] == c.aulas[a])
                      && r.value == c.(bloques := r.value.bloques, aulas := r.value.aulas)
  {
    if id !in c.bloques then Err(NotFound)
    else
      var aulas := map a | a in c.aulas && c.aulas[a].bloque != id :: c.aulas[a];
      Ok(c.(bloques := c.bloques - {id}, aulas := aulas))
  }

  /** Removing a block together with its classrooms keeps the catalog valid. */
  lemma DeleteBloqueValid(c: Catalog, id: BloqueId)
    requires Valid(c) && DeleteBloque(c, id).Ok?
    ensures Valid(DeleteBloque(c, id).value)
  {
    var d := DeleteBloque(c, id).value;
    assert forall a | a in d.aulas :: d.aulas[a].bloque in d.bloques;
  }

  // ---------------------------------------------------------------
  // Insertions checked by unique constraints
  // ---------------------------------------------------------------

  predicate PairExists(dcs: map<DocenteCarreraId, DocenteCarrera>, dc: DocenteCarrera) {
    exists k | k in dcs :: dcs[k] == dc
  }

  /** Inserting a DocenteCarrera row under the fresh key `id`; the unique
      pair constraint rejects a second link of the same user and career. */
  function AddDocenteCarrera(c: Catalog, id: DocenteCarreraId, dc: DocenteCarrera): (r: Result<Catalog>)
    requires id !in c.docenteCarreras
    ensures r.Err? <==> dc.usuario !in c.usuarios || dc.carrera !in c.carreras
                        || PairExists(c.docenteCarreras, dc)
    ensures r.Ok? ==> r.value.docenteCarreras.Keys == c.docenteCarreras.Keys + {id}
                      && r.value.docenteCarreras[id] == dc
                      && (forall k | k in c.docenteCarreras :: r.value.docenteCarreras[k] == c.docenteCarreras[k])
                      && r.value == c.(docenteCarreras := r.value.docenteCarreras)
  {
    if dc.usuario !in c.usuarios || dc.carrera !in c.carreras then Err(IntegrityError)
    else if PairExists(c.docenteCarreras, dc) then Err(IntegrityError)
    else Ok(c.(docenteCarreras := c.docenteCarreras[id := dc]))
  }

  /** An accepted link keeps every pair once and every link pointing at an
      existing user and career. */
  lemma AddDocenteCarreraValid(c: Catalog, id: DocenteCarreraId, dc: DocenteCarrera)
    requires Valid(c) && id !in c.docenteCarreras && AddDocenteCarrera(c, id, dc).Ok?
    ensures Valid(AddDocenteCarrera(c, id, dc).value)
  {
    var d := AddDocenteCarrera(c, id, dc).value;
    forall a, b | a in d.docenteCarreras && b in d.docenteCarreras && a != b
      ensures d.docenteCarreras[a] != d.docenteCarreras[b]
    {
      if a == id {
        assert b in c.docenteCarreras && c.docenteCarreras[b] != dc;
      } else if b == id {
        assert a in c.docenteCarreras && c.docenteCarreras[a] != dc;
      }
    }
    assert ForeignKeysOk(d);
  }

  /** `usuario.save()`: insert or update the row `id`; the unique columns
      and the foreign keys are checked by the database. */
  function SaveUsuario(c: Catalog, id: UserId, u: Usuario): (r: Result<Catalog>)
    ensures r.Err? <==> Clashes(c.usuarios, id, u) || u.rol !in c.roles
                        || (u.titulo.Some? && u.titulo.value !in c.titulos)
    ensures r.Ok? ==> r.value.usuarios.Keys == c.usuarios.Keys + {id}
                      && r.value.usuarios[id] == u
                      && (forall k | k in c.usuarios && k != id :: r.value.usuarios[k] == c.usuarios[k])
                      && r.value == c.(usuarios := r.value.usuarios)
  {
    if Clashes(c.usuarios, id, u) then Err(IntegrityError)
    else if u.rol !in c.roles || (u.titulo.Some? && u.titulo.value !in c.titulos) then Err(IntegrityError)
    else Ok(c.(usuarios := c.usuarios[id := u]))
  }

  /** A save accepted by the database keeps usernames and cedulas unique and
      every user's role and title existing. Links to the saved user stay
      valid because the row `id` exists afterwards. */
  lemma SaveUsuarioValid(c: Catalog, id: UserId, u: Usuario)
    requires Valid(c) && SaveUsuario(c, id, u).Ok?
    ensures Valid(SaveUsuario(c, id, u).value)
  {
    var d := SaveUsuario(c, id, u).value;
    forall a, b | a in d.usuarios && b in d.usuarios && a != b
      ensures d.usuarios[a].username != d.usuarios[b].username
      ensures d.usuarios[a].cedula != d.usuarios[b].cedula
    {
      if a == id {
        assert b in c.usuarios && b != id;
      } else if b == id {
        assert a in c.usuarios && a != id;
      }
    }
    assert ForeignKeysOk(d);
  }

  // ---------------------------------------------------------------
  // Passwords, with the framework's hasher left abstract
  // ---------------------------------------------------------------

  /** `make_password(raw)` with its salt, and `check_password(raw, encoded)`. */
  datatype Hasher = Hasher(encode: (string, string) -> string, verify: (string, string) -> bool)

  /** What the framework promises of its hasher: an encoding of `raw`
      verifies against `raw`, whatever salt was drawn. */
  ghost predicate Sound(h: Hasher) {
    forall raw, salt :: h.verify(raw, h.encode(raw, salt))
  }

  /** The row after `set_password(raw)`: only the stored password changes. */
  function WithPassword(u: Usuario, h: Hasher, raw: string, salt: string): (r: Usuario)
    ensures r.password == h.encode(raw, salt)
    ensures r.(password := u.password) == u
  {
    u.(password := h.encode(raw, salt))
  }

  /** `check_password(raw)` on a row. */
  predicate PasswordMatches(u: Usuario, h: Hasher, raw: string) {
    h.verify(raw, u.password)
  }

  /** After `set_password(p)`, `check_password(p)` holds for a sound hasher,
      and the other columns are untouched. */
  lemma SetThenCheck(u: Usuario, h: Hasher, raw: string, salt: string)
    requires Sound(h)
    ensures PasswordMatches(WithPassword(u, h, raw, salt), h, raw)
    ensures WithPassword(u, h, raw, salt).(password := u.password) == u
  {
  }

  /** A user model object in memory: its primary key (none before the first
      save) and its column values. */
  class UsuarioInstance {
    var pk: Option<UserId>
    var row: Usuario

    constructor (pk: Option<UserId>, row: Usuario)
      ensures this.pk == pk && this.row == row
    {
      this.pk := pk;
      this.row := row;
    }

    /** `set_password(raw_password)`: assigns the encoded password. */
    method SetPassword(h: Hasher, raw: string, salt: string)
      modifies this
      ensures row == WithPassword(old(row), h, raw, salt)
      ensures pk == old(pk)
      ensures Sound(h) ==> CheckPassword(h, raw)
    {
      row := row.(password := h.encode(raw, salt));
    }

    /** `check_password(raw_password)`. */
    predicate CheckPassword(h: Hasher, raw: string)
      reads this
    {
      PasswordMatches(row, h, raw)
    }
  }
}
