/** The monthly report of STR_Chromebook/Gestion_Equipos/views/reportes.py:
    the month and year taken from the query string, the reservations of
    that month, the counts by exact status, the sum of requested devices,
    the rankings by career and by requester, the devices in use, and the
    statistics block and detail rows of the spreadsheet download. */
module Reportes {
  import opened Base
  import opened Text
  import opened CoreModels
  import opened EquiposModels

  /** A month and a year, as the filter compares them with `fecha_uso`. */
  datatype Periodo = Periodo(mes: int, anio: int)

  // ---------------------------------------------------------------
  // The query-string parameters
  // ---------------------------------------------------------------

  /** `int(request.GET.get(key, default))`: an absent key reads as the
      default number, a present one is parsed as Python's `int()` does. */
  function Param(v: Option<string>, default: int): Option<int> {
    if v.None? then Some(default) else ParseInt(v.value)
  }

  /** The page's parameters: both values are converted inside one `try`,
      so either failing sends both back to the current month and year. */
  function PeriodoPagina(mes: Option<string>, anio: Option<string>, now: Periodo): (p: Periodo)
    ensures p == now || (mes.Some? && ParseInt(mes.value) == Some(p.mes)) || (mes.None? && p.mes == now.mes)
  {
    var m := Param(mes, now.mes);
    var a := Param(anio, now.anio);
    if m.Some? && a.Some? then Periodo(m.value, a.value) else now
  }

  /** The month and year given as decimal text are the ones filtered on. */
  lemma PeriodoDecimal(m: int, y: int, now: Periodo)
    ensures PeriodoPagina(Some(IntToString(m)), Some(IntToString(y)), now) == Periodo(m, y)
  {
    ParseIntRoundTrip(m);
    ParseIntRoundTrip(y);
  }

  /** Text without a digit in either parameter falls back to the current
      month and year, both of them. */
  lemma PeriodoFallback(mes: string, anio: Option<string>, now: Periodo)
    requires forall i | 0 <= i < |mes| :: !IsDigit(mes[i])
    ensures PeriodoPagina(Some(mes), anio, now) == now
    ensures PeriodoPagina(anio, Some(mes), now) == now
  {
    ParseIntNeedsDigit(mes);
  }

  /** Absent parameters select the current month and year. */
  lemma PeriodoDefault(now: Periodo)
    ensures PeriodoPagina(None, None, now) == now
  {
  }

  /** The spreadsheet converts without a `try`: a value that does not
      parse fails the download. */
  function PeriodoExcel(mes: Option<string>, anio: Option<string>, now: Periodo): (r: Result<Periodo>)
    ensures r.Ok? <==> Param(mes, now.mes).Some? && Param(anio, now.anio).Some?
    ensures r.Ok? ==> r.value == PeriodoPagina(mes, anio, now)
  {
    var m := Param(mes, now.mes);
    var a := Param(anio, now.anio);
    if m.Some? && a.Some? then Ok(Periodo(m.value, a.value)) else Err(InvalidParameter)
  }

  /** `calendar.month_name[m]` exists: the 13 entries (the first one empty)
      and Python's negative indexes from the end. */
  predicate MonthNameIndex(m: int) {
    -13 <= m <= 12
  }

  /** `fecha_uso__year=y` can be queried: the lookup builds the bounds
      `date(y, 1, 1)` and `date(y, 12, 31)`, which raise ValueError outside
      the years 1 to 9999. */
  predicate YearQueryable(y: int) {
    1 <= y <= 9999
  }

  // ---------------------------------------------------------------
  // The reservations of the month
  // ---------------------------------------------------------------

  /** The reservation table as the query returns it, in key order. */
  function Tabla(m: map<ReservaId, Reserva>, n: nat): (rs: seq<Reserva>)
    ensures forall x | x in rs :: x in m.Values
  {
    if n == 0 then []
    else
      var w := Tabla(m, n - 1);
      if n - 1 in m then w + [m[n - 1]] else w
  }

  predicate EnPeriodo(r: Reserva, p: Periodo) {
    r.fechaUso.month == p.mes && r.fechaUso.year == p.anio
  }

  /** `Reserva.objects.filter(fecha_uso__month=..., fecha_uso__year=...)`. */
  function DelPeriodo(rs: seq<Reserva>, p: Periodo): (r: seq<Reserva>)
    ensures |r| <= |rs|
    ensures forall x | x in r :: x in rs && EnPeriodo(x, p)
    ensures forall x | x in rs && EnPeriodo(x, p) :: x in r
  {
    if rs == [] then []
    else
      var last := rs[|rs| - 1];
      var w := DelPeriodo(rs[..|rs| - 1], p);
      assert forall x | x in rs[..|rs| - 1] :: x in rs;
      assert forall x | x in rs :: x in rs[..|rs| - 1] || x == last;
      if EnPeriodo(last, p) then w + [last] else w
  }

  /** The keys of the reservations below `n` that fall in the month. */
  function ClavesDelPeriodo(m: map<ReservaId, Reserva>, n: nat, p: Periodo): set<ReservaId> {
    set k | k in m && k < n && EnPeriodo(m[k], p)
  }

  lemma TablaPaso(m: map<ReservaId, Reserva>, n: nat, p: Periodo)
    requires n > 0
    ensures |DelPeriodo(Tabla(m, n), p)|
            == |DelPeriodo(Tabla(m, n - 1), p)| + (if n - 1 in m && EnPeriodo(m[n - 1], p) then 1 else 0)
  {
    var w := Tabla(m, n - 1);
    if n - 1 in m {
      var t := w + [m[n - 1]];
      assert t[..|t| - 1] == w;
    }
  }

  lemma ClavesPaso(m: map<ReservaId, Reserva>, n: nat, p: Periodo)
    requires n > 0
    ensures |ClavesDelPeriodo(m, n, p)|
            == |ClavesDelPeriodo(m, n - 1, p)| + (if n - 1 in m && EnPeriodo(m[n - 1], p) then 1 else 0)
  {
    var a := ClavesDelPeriodo(m, n - 1, p);
    var b := ClavesDelPeriodo(m, n, p);
    if n - 1 in m && EnPeriodo(m[n - 1], p) {
      assert b == a + {n - 1};
    } else {
      assert b == a;
    }
  }

  /** The month's rows are exactly as many as the month's keys. */
  lemma {:induction false} TablaCuenta(m: map<ReservaId, Reserva>, n: nat, p: Periodo)
    ensures |DelPeriodo(Tabla(m, n), p)| == |ClavesDelPeriodo(m, n, p)|
  {
    if n > 0 {
      TablaCuenta(m, n - 1, p);
      TablaPaso(m, n, p);
      ClavesPaso(m, n, p);
    }
  }

  /** Every reservation of the table is listed once its key is below the
      counter, and so the page's total is the number of the month's keys. */
  lemma TotalDelPeriodo(db: Db, p: Periodo)
    requires forall k | k in db.reservas :: k < db.next.reserva
    ensures |DelPeriodo(Tabla(db.reservas, db.next.reserva), p)|
            == |set k | k in db.reservas && EnPeriodo(db.reservas[k], p)|
  {
    TablaCuenta(db.reservas, db.next.reserva, p);
    assert ClavesDelPeriodo(db.reservas, db.next.reserva, p)
           == set k | k in db.reservas && EnPeriodo(db.reservas[k], p);
  }

  // ---------------------------------------------------------------
  // Counts and the sum
  // ---------------------------------------------------------------

  /** `.filter(estado_reserva=estado).count()`: exact matches only. */
  function Contar(rs: seq<Reserva>, estado: string): nat {
    if rs == [] then 0
    else Contar(rs[..|rs| - 1], estado) + (if rs[|rs| - 1].estadoReserva == estado then 1 else 0)
  }

  /** `sum([r.cant_solicitada for r in reservas])`. */
  function SumaCant(rs: seq<Reserva>): int {
    if rs == [] then 0 else SumaCant(rs[..|rs| - 1]) + rs[|rs| - 1].cantSolicitada
  }

  /** The three shown counts and the finalized ones never exceed the total. */
  lemma {:induction false} ConteosAcotados(rs: seq<Reserva>)
    ensures Contar(rs, Aprobada) + Contar(rs, Rechazada) + Contar(rs, Pendiente) + Contar(rs, Finalizada) <= |rs|
  {
    if rs != [] {
      ConteosAcotados(rs[..|rs| - 1]);
    }
  }

  /** A finalized reservation adds to the total and to the sum, and to none
      of the three status counts. */
  lemma FinalizadaSoloEnTotal(rs: seq<Reserva>, r: Reserva)
    requires r.estadoReserva == Finalizada
    ensures |rs + [r]| == |rs| + 1
    ensures SumaCant(rs + [r]) == SumaCant(rs) + r.cantSolicitada
    ensures Contar(rs + [r], Aprobada) == Contar(rs, Aprobada)
    ensures Contar(rs + [r], Rechazada) == Contar(rs, Rechazada)
    ensures Contar(rs + [r], Pendiente) == Contar(rs, Pendiente)
  {
    assert (rs + [r])[..|rs + [r]| - 1] == rs;
  }

  /** The quantity sum runs over every reservation of the month, whatever
      its status: one more of any status adds its quantity. */
  lemma SumaTodas(rs: seq<Reserva>, r: Reserva)
    ensures SumaCant(rs + [r]) == SumaCant(rs) + r.cantSolicitada
  {
    assert (rs + [r])[..|rs + [r]| - 1] == rs;
  }

  // ---------------------------------------------------------------
  // values(name).annotate(cantidad=Count(...)).order_by('-cantidad')
  // ---------------------------------------------------------------

  datatype Grupo = Grupo(nombre: string, cantidad: nat)

  function Ocurrencias(keys: seq<string>, x: string): nat {
    if keys == [] then 0
    else Ocurrencias(keys[..|keys| - 1], x) + (if keys[|keys| - 1] == x then 1 else 0)
  }

  predicate SinRepetir(ds: seq<string>) {
    forall i, j | 0 <= i < j < |ds| :: ds[i] != ds[j]
  }

  /** The distinct names, in order of first appearance. */
  function Distintos(keys: seq<string>): (ds: seq<string>)
    ensures SinRepetir(ds)
    ensures forall x :: x in ds <==> x in keys
  {
    if keys == [] then []
    else
      var w := Distintos(keys[..|keys| - 1]);
      var last := keys[|keys| - 1];
      assert forall x :: x in keys <==> x in keys[..|keys| - 1] || x == last;
      if last in w then w else w + [last]
  }

  function Contados(ds: seq<string>, keys: seq<string>): (g: seq<Grupo>)
    ensures |g| == |ds|
    ensures forall i | 0 <= i < |ds| :: g[i] == Grupo(ds[i], Ocurrencias(keys, ds[i]))
  {
    seq(|ds|, i requires 0 <= i < |ds| => Grupo(ds[i], Ocurrencias(keys, ds[i])))
  }

  predicate Descendente(g: seq<Grupo>) {
    forall i, j | 0 <= i < j < |g| :: g[i].cantidad >= g[j].cantidad
  }

  predicate NombresDistintos(g: seq<Grupo>) {
    forall i, j | 0 <= i < j < |g| :: g[i].nombre != g[j].nombre
  }

  /** The sum of the counts. */
  function Total(g: seq<Grupo>): nat {
    if g == [] then 0 else g[0].cantidad + Total(g[1..])
  }

  /** Insert one group after every group with at least its count. */
  function Insertar(x: Grupo, g: seq<Grupo>): (r: seq<Grupo>)
    requires Descendente(g)
    ensures Descendente(r)
    ensures forall y | y in r :: y in g || y == x
  {
    if g == [] then [x]
    else if g[0].cantidad >= x.cantidad then
      var t := Insertar(x, g[1..]);
      HeadDominates(g);
      ConsDescendente(g[0], t);
      [g[0]] + t
    else [x] + g
  }

  /** The first group of a descending list has at least every later count. */
  lemma HeadDominates(g: seq<Grupo>)
    requires Descendente(g) && g != []
    ensures forall y | y in g[1..] :: g[0].cantidad >= y.cantidad
  {
    forall y | y in g[1..] ensures g[0].cantidad >= y.cantidad {
      var k :| 0 <= k < |g[1..]| && g[1..][k] == y;
      assert g[k + 1] == y;
    }
  }

  /** A group with at least every count of a descending list may lead it. */
  lemma ConsDescendente(h: Grupo, t: seq<Grupo>)
    requires Descendente(t) && forall y | y in t :: h.cantidad >= y.cantidad
    ensures Descendente([h] + t)
  {
    var r := [h] + t;
    forall i, j | 0 <= i < j < |r| ensures r[i].cantidad >= r[j].cantidad {
      assert r[j] == t[j - 1] && r[j] in t;
      if i > 0 { assert r[i] == t[i - 1]; }
    }
  }

  lemma {:induction false} InsertarMultiset(x: Grupo, g: seq<Grupo>)
    requires Descendente(g)
    ensures multiset(Insertar(x, g)) == multiset(g) + multiset{x}
  {
    if g != [] && g[0].cantidad >= x.cantidad {
      InsertarMultiset(x, g[1..]);
      assert g == [g[0]] + g[1..];
    }
  }

  /** `order_by('-cantidad')`: a descending rearrangement of the groups. */
  function OrdenarDesc(g: seq<Grupo>): (r: seq<Grupo>)
    ensures Descendente(r)
  {
    if g == [] then [] else Insertar(g[0], OrdenarDesc(g[1..]))
  }

  lemma {:induction false} OrdenarMultiset(g: seq<Grupo>)
    ensures multiset(OrdenarDesc(g)) == multiset(g)
  {
    if g != [] {
      OrdenarMultiset(g[1..]);
      InsertarMultiset(g[0], OrdenarDesc(g[1..]));
      assert g == [g[0]] + g[1..];
    }
  }

  /** The tail of a list with distinct names has distinct names, none of
      them the head's. */
  lemma Cola(g: seq<Grupo>)
    requires g != [] && NombresDistintos(g)
    ensures NombresDistintos(g[1..])
    ensures forall y | y in g[1..] :: y.nombre != g[0].nombre
  {
    forall y | y in g[1..] ensures y.nombre != g[0].nombre {
      var k :| 0 <= k < |g[1..]| && g[1..][k] == y;
      assert g[k + 1] == y;
    }
  }

  lemma {:induction false} InsertarTotal(x: Grupo, g: seq<Grupo>)
    requires Descendente(g)
    ensures Total(Insertar(x, g)) == Total(g) + x.cantidad
  {
    if g != [] && g[0].cantidad >= x.cantidad {
      InsertarTotal(x, g[1..]);
      var t := Insertar(x, g[1..]);
      assert ([g[0]] + t)[1..] == t;
    } else if g != [] {
      assert ([x] + g)[1..] == g;
    }
  }

  lemma {:induction false} InsertarDistintos(x: Grupo, g: seq<Grupo>)
    requires Descendente(g) && NombresDistintos(g)
    requires forall y | y in g :: y.nombre != x.nombre
    ensures NombresDistintos(Insertar(x, g))
  {
    if g != [] && g[0].cantidad >= x.cantidad {
      Cola(g);
      assert forall y | y in g[1..] :: y in g;
      InsertarDistintos(x, g[1..]);
      var t := Insertar(x, g[1..]);
      var r := [g[0]] + t;
      forall i, j | 0 <= i < j < |r| ensures r[i].nombre != r[j].nombre {
        if i > 0 {
          assert r[i] == t[i - 1] && r[j] == t[j - 1];
        } else {
          assert r[j] == t[j - 1] && r[j] in t;
        }
      }
    } else if g != [] {
      var r := [x] + g;
      forall i, j | 0 <= i < j < |r| ensures r[i].nombre != r[j].nombre {
        if i > 0 {
          assert r[i] == g[i - 1] && r[j] == g[j - 1];
        } else {
          assert r[j] == g[j - 1] && r[j] in g;
        }
      }
    }
  }

  lemma {:induction false} OrdenarTotal(g: seq<Grupo>)
    ensures Total(OrdenarDesc(g)) == Total(g)
  {
    if g != [] {
      OrdenarTotal(g[1..]);
      InsertarTotal(g[0], OrdenarDesc(g[1..]));
    }
  }

  lemma {:induction false} OrdenarDistintos(g: seq<Grupo>)
    requires NombresDistintos(g)
    ensures NombresDistintos(OrdenarDesc(g))
  {
    if g != [] {
      Cola(g);
      OrdenarDistintos(g[1..]);
      var o := OrdenarDesc(g[1..]);
      OrdenarMultiset(g[1..]);
      forall y | y in o ensures y.nombre != g[0].nombre {
        assert y in multiset(o);
        assert y in g[1..];
      }
      InsertarDistintos(g[0], o);
    }
  }

  /** The grouped counts in descending order. */
  function Agrupar(keys: seq<string>): seq<Grupo> {
    OrdenarDesc(Contados(Distintos(keys), keys))
  }

  /** What the grouped query promises: one group per distinct name, each
      with the number of rows bearing it, in descending count. */
  predicate EsRanking(keys: seq<string>, g: seq<Grupo>) {
    && NombresDistintos(g)
    && (forall i | 0 <= i < |g| :: g[i].cantidad == Ocurrencias(keys, g[i].nombre))
    && (forall x | x in keys :: exists i | 0 <= i < |g| :: g[i].nombre == x)
    && (forall i | 0 <= i < |g| :: g[i].nombre in keys)
    && Descendente(g)
  }

  lemma AgruparEsRanking(keys: seq<string>)
    ensures EsRanking(keys, Agrupar(keys))
  {
    var ds := Distintos(keys);
    var c := Contados(ds, keys);
    var g := Agrupar(keys);
    assert NombresDistintos(c);
    OrdenarDistintos(c);
    OrdenarMultiset(c);
    forall i | 0 <= i < |g| ensures g[i].cantidad == Ocurrencias(keys, g[i].nombre) && g[i].nombre in keys {
      assert g[i] in multiset(g);
      assert g[i] in c;
    }
    forall x | x in keys ensures exists i | 0 <= i < |g| :: g[i].nombre == x {
      var a :| 0 <= a < |ds| && ds[a] == x;
      assert c[a] in multiset(c);
      assert c[a] in g;
    }
  }

  // ---------------------------------------------------------------
  // The counts add up to the number of rows
  // ---------------------------------------------------------------

  /** The number of rows of each of the names `ds`, added up. */
  function SumaOcurrencias(ds: seq<string>, keys: seq<string>): nat {
    if ds == [] then 0 else Ocurrencias(keys, ds[0]) + SumaOcurrencias(ds[1..], keys)
  }

  lemma {:induction false} SumaVacia(ds: seq<string>)
    ensures SumaOcurrencias(ds, []) == 0
  {
    if ds != [] {
      SumaVacia(ds[1..]);
    }
  }

  /** One more row adds one to the sum when its name is among `ds`. */
  lemma {:induction false} SumaPaso(ds: seq<string>, keys: seq<string>, x: string)
    requires SinRepetir(ds)
    ensures SumaOcurrencias(ds, keys + [x]) == SumaOcurrencias(ds, keys) + (if x in ds then 1 else 0)
  {
    if ds != [] {
      assert SinRepetir(ds[1..]);
      SumaPaso(ds[1..], keys, x);
      assert (keys + [x])[..|keys + [x]| - 1] == keys;
      assert x in ds <==> x == ds[0] || x in ds[1..];
      forall k | 0 <= k < |ds[1..]| ensures ds[1..][k] != ds[0] {
        assert ds[1..][k] == ds[k + 1];
      }
    }
  }

  /** Summing the counts of all distinct names gives the number of rows. */
  lemma {:induction false} SumaCubre(ds: seq<string>, keys: seq<string>)
    requires SinRepetir(ds)
    requires forall x | x in keys :: x in ds
    ensures SumaOcurrencias(ds, keys) == |keys|
  {
    if keys == [] {
      SumaVacia(ds);
    } else {
      var w := keys[..|keys| - 1];
      assert keys == w + [keys[|keys| - 1]];
      SumaCubre(ds, w);
      SumaPaso(ds, w, keys[|keys| - 1]);
    }
  }

  lemma {:induction false} TotalContados(ds: seq<string>, keys: seq<string>)
    ensures Total(Contados(ds, keys)) == SumaOcurrencias(ds, keys)
  {
    if ds != [] {
      TotalContados(ds[1..], keys);
      assert Contados(ds, keys)[1..] == Contados(ds[1..], keys);
    }
  }

  /** The groups' counts add up to the number of rows grouped. */
  lemma AgruparSuma(keys: seq<string>)
    ensures Total(Agrupar(keys)) == |keys|
  {
    var ds := Distintos(keys);
    TotalContados(ds, keys);
    SumaCubre(ds, keys);
    OrdenarTotal(Contados(ds, keys));
  }

  // ---------------------------------------------------------------
  // [:10]
  // ---------------------------------------------------------------

  function Primeros(g: seq<Grupo>, n: nat): (r: seq<Grupo>)
    ensures |r| == if |g| <= n then |g| else n
    ensures r == g[..|r|]
  {
    if |g| <= n then g else g[..n]
  }

  /** The first `n` groups of a ranking: in descending count, each with its
      true count, and no name left out has more rows than any name kept. */
  lemma PrimerosDeRanking(keys: seq<string>, g: seq<Grupo>, n: nat)
    requires EsRanking(keys, g)
    ensures var t := Primeros(g, n);
      && Descendente(t) && NombresDistintos(t)
      && (forall i | 0 <= i < |t| :: t[i].cantidad == Ocurrencias(keys, t[i].nombre))
      && (forall x | x in keys && (forall i | 0 <= i < |t| :: t[i].nombre != x) ::
            forall i | 0 <= i < |t| :: Ocurrencias(keys, x) <= t[i].cantidad)
  {
    var t := Primeros(g, n);
    assert forall i | 0 <= i < |t| :: t[i] == g[i];
    forall x | x in keys && (forall i | 0 <= i < |t| :: t[i].nombre != x)
      ensures forall i | 0 <= i < |t| :: Ocurrencias(keys, x) <= t[i].cantidad
    {
      var j :| 0 <= j < |g| && g[j].nombre == x;
      assert j >= |t|;
      forall i | 0 <= i < |t| ensures Ocurrencias(keys, x) <= t[i].cantidad {
        assert g[i].cantidad >= g[j].cantidad;
      }
    }
  }

  /** The requester ranking: at most ten groups, in descending count, each
      with its true count, and no name left out has more rows than any
      name kept. */
  lemma PrimerosDiez(keys: seq<string>)
    ensures var t := Primeros(Agrupar(keys), 10);
      && |t| <= 10
      && Descendente(t) && NombresDistintos(t)
      && (forall i | 0 <= i < |t| :: t[i].cantidad == Ocurrencias(keys, t[i].nombre))
      && (forall x | x in keys && (forall i | 0 <= i < |t| :: t[i].nombre != x) ::
            forall i | 0 <= i < |t| :: Ocurrencias(keys, x) <= t[i].cantidad)
  {
    AgruparEsRanking(keys);
    PrimerosDeRanking(keys, Agrupar(keys), 10);
  }

  // ---------------------------------------------------------------
  // Names shown for a reservation
  // ---------------------------------------------------------------

  /** `id_carrera__nom_carrera`; a key missing from the catalog reads as "". */
  function NombreCarrera(c: Catalog, r: Reserva): string {
    if r.carrera in c.carreras then c.carreras[r.carrera].nomCarrera else ""
  }

  /** `id_usuario__nom_completo`. */
  function NombreDocente(c: Catalog, r: Reserva): string {
    if r.usuario in c.usuarios then c.usuarios[r.usuario].nomCompleto else ""
  }

  function NombreAsignatura(c: Catalog, r: Reserva): string {
    if r.asignatura in c.asignaturas then c.asignaturas[r.asignatura] else ""
  }

  /** `id_aula__id_bloque__nom_bloque`. */
  function NombreBloque(c: Catalog, r: Reserva): string {
    if r.aula in c.aulas && c.aulas[r.aula].bloque in c.bloques then c.bloques[c.aulas[r.aula].bloque] else ""
  }

  function NombreAula(c: Catalog, r: Reserva): string {
    if r.aula in c.aulas then c.aulas[r.aula].nomAula else ""
  }

  function Carreras(c: Catalog, rs: seq<Reserva>): (ks: seq<string>)
    ensures |ks| == |rs|
    ensures forall i | 0 <= i < |rs| :: ks[i] == NombreCarrera(c, rs[i])
  {
    seq(|rs|, i requires 0 <= i < |rs| => NombreCarrera(c, rs[i]))
  }

  function Docentes(c: Catalog, rs: seq<Reserva>): (ks: seq<string>)
    ensures |ks| == |rs|
    ensures forall i | 0 <= i < |rs| :: ks[i] == NombreDocente(c, rs[i])
  {
    seq(|rs|, i requires 0 <= i < |rs| => NombreDocente(c, rs[i]))
  }

  // ---------------------------------------------------------------
  // Devices in use
  // ---------------------------------------------------------------

  /** The device's status is labelled exactly 'En uso'. */
  predicate EnUso(estados: map<EstadoId, string>, e: Equipo) {
    e.estado in estados && estados[e.estado] == EquiposModels.EnUso
  }

  /** `Equipo.objects.filter(id_estado_equipo__nom_estado='En uso').count()`. */
  function EnUsoCount(estados: map<EstadoId, string>, eqs: seq<Equipo>): nat {
    if eqs == [] then 0
    else EnUsoCount(estados, eqs[..|eqs| - 1]) + (if EnUso(estados, eqs[|eqs| - 1]) then 1 else 0)
  }

  /** The positions of the devices in use. */
  function EnUsoIndices(estados: map<EstadoId, string>, eqs: seq<Equipo>): set<nat> {
    set i | 0 <= i < |eqs| && EnUso(estados, eqs[i])
  }

  lemma EnUsoIndicesPaso(estados: map<EstadoId, string>, eqs: seq<Equipo>)
    requires eqs != []
    ensures |EnUsoIndices(estados, eqs)|
            == |EnUsoIndices(estados, eqs[..|eqs| - 1])| + (if EnUso(estados, eqs[|eqs| - 1]) then 1 else 0)
  {
    var w := eqs[..|eqs| - 1];
    var a := EnUsoIndices(estados, w);
    var b := EnUsoIndices(estados, eqs);
    assert forall i | 0 <= i < |w| :: w[i] == eqs[i];
    if EnUso(estados, eqs[|eqs| - 1]) {
      assert b == a + {|w|};
    } else {
      assert b == a;
    }
  }

  /** The count is the number of devices labelled exactly 'En uso'. */
  lemma {:induction false} EnUsoCuenta(estados: map<EstadoId, string>, eqs: seq<Equipo>)
    ensures EnUsoCount(estados, eqs) == |EnUsoIndices(estados, eqs)|
  {
    if eqs != [] {
      EnUsoCuenta(estados, eqs[..|eqs| - 1]);
      EnUsoIndicesPaso(estados, eqs);
    }
  }

  // ---------------------------------------------------------------
  // The report page
  // ---------------------------------------------------------------

  /** `calendar.month_name[m]` in the default C locale. */
  function MonthName(m: int): string
    requires MonthNameIndex(m)
  {
    var names := ["", "January", "February", "March", "April", "May", "June", "July",
                  "August", "September", "October", "November", "December"];
    names[if m < 0 then m + 13 else m]
  }

  /** The reservations of the month, in key order. */
  function DelMes(db: Db, p: Periodo): seq<Reserva> {
    DelPeriodo(Tabla(db.reservas, db.next.reserva), p)
  }

  /** What the report page shows. */
  datatype Reporte = Reporte(
    periodo: Periodo, mesNombre: string,
    total: nat, aprobadas: nat, rechazadas: nat, pendientes: nat,
    totalEquipos: int, porCarrera: seq<Grupo>, porDocente: seq<Grupo>, enUso: nat)

  /** `ver_reportes`: a logged-in administrator who exists sees the report
      of the selected month; a year the date lookup cannot bound fails the
      first count, and a month number outside `month_name` fails the page
      when its title is looked up. */
  function VerReportes(db: Db, s: Session, mes: Option<string>, anio: Option<string>, now: Periodo): (r: Result<Reporte>)
    ensures !LoggedIn(s) || !IsAdmin(s) ==> r == Err(AccessDenied)
    ensures r.Ok? <==> LoggedIn(s) && IsAdmin(s) && s.usuarioId.value in db.catalog.usuarios
                       && YearQueryable(PeriodoPagina(mes, anio, now).anio)
                       && MonthNameIndex(PeriodoPagina(mes, anio, now).mes)
    ensures r.Ok? ==> r.value.periodo == PeriodoPagina(mes, anio, now)
  {
    if !LoggedIn(s) || !IsAdmin(s) then Err(AccessDenied)
    else if s.usuarioId.value !in db.catalog.usuarios then Err(NotFound)
    else
      var p := PeriodoPagina(mes, anio, now);
      var rs := DelMes(db, p);
      if !YearQueryable(p.anio) || !MonthNameIndex(p.mes) then Err(InvalidParameter)
      else Ok(Reporte(p, MonthName(p.mes), |rs|, Contar(rs, Aprobada), Contar(rs, Rechazada), Contar(rs, Pendiente),
                      SumaCant(rs), Agrupar(Carreras(db.catalog, rs)),
                      Primeros(Agrupar(Docentes(db.catalog, rs)), 10), EnUsoCount(db.estados, db.equipos)))
  }

  /** What the page's figures mean, on a store whose keys are below their
      counter: the total is the number of the month's reservations, the
      three status counts fit in it, the career ranking groups every one
      of them, the requester ranking is the top ten, and the in-use figure
      counts the devices labelled exactly 'En uso'. */
  lemma VerReportesCorrecto(db: Db, s: Session, mes: Option<string>, anio: Option<string>, now: Periodo)
    requires forall k | k in db.reservas :: k < db.next.reserva
    requires VerReportes(db, s, mes, anio, now).Ok?
    ensures var R := VerReportes(db, s, mes, anio, now).value;
      var rs := DelMes(db, R.periodo);
      && R.total == |set k | k in db.reservas && EnPeriodo(db.reservas[k], R.periodo)|
      && R.aprobadas + R.rechazadas + R.pendientes <= R.total
      && EsRanking(Carreras(db.catalog, rs), R.porCarrera)
      && Total(R.porCarrera) == R.total
      && |R.porDocente| <= 10
      && (forall i | 0 <= i < |R.porDocente| ::
            R.porDocente[i].cantidad == Ocurrencias(Docentes(db.catalog, rs), R.porDocente[i].nombre))
      && R.enUso == |EnUsoIndices(db.estados, db.equipos)|
  {
    var R := VerReportes(db, s, mes, anio, now).value;
    var rs := DelMes(db, R.periodo);
    TotalDelPeriodo(db, R.periodo);
    ConteosAcotados(rs);
    AgruparEsRanking(Carreras(db.catalog, rs));
    AgruparSuma(Carreras(db.catalog, rs));
    PrimerosDiez(Docentes(db.catalog, rs));
    EnUsoCuenta(db.estados, db.equipos);
  }

  // ---------------------------------------------------------------
  // order_by('fecha_uso', 'hora_inicio')
  // ---------------------------------------------------------------

  /** `a` sorts no later than `b` by date and then start time. */
  predicate Precede(a: Reserva, b: Reserva) {
    var x, y := a.fechaUso, b.fechaUso;
    || x.year < y.year
    || (x.year == y.year && x.month < y.month)
    || (x.year == y.year && x.month == y.month && x.day < y.day)
    || (x == y && a.horaInicio <= b.horaInicio)
  }

  predicate Ascendente(rs: seq<Reserva>) {
    forall i, j | 0 <= i < j < |rs| :: Precede(rs[i], rs[j])
  }

  /** Insert one reservation before the first one it precedes. */
  function InsertarPorFecha(x: Reserva, rs: seq<Reserva>): (r: seq<Reserva>)
    requires Ascendente(rs)
    ensures Ascendente(r)
    ensures forall y | y in r :: y in rs || y == x
  {
    if rs == [] then [x]
    else if Precede(x, rs[0]) then
      var r := [x] + rs;
      assert forall j | 0 < j < |r| :: r[j] == rs[j - 1];
      r
    else
      var t := InsertarPorFecha(x, rs[1..]);
      assert forall y | y in rs[1..] :: Precede(rs[0], y) by {
        forall y | y in rs[1..] ensures Precede(rs[0], y) {
          var k :| 0 <= k < |rs[1..]| && rs[1..][k] == y;
          assert rs[k + 1] == y;
        }
      }
      var r := [rs[0]] + t;
      assert forall j | 0 < j < |r| :: r[j] == t[j - 1] && r[j] in t;
      r
  }

  lemma {:induction false} InsertarPorFechaMultiset(x: Reserva, rs: seq<Reserva>)
    requires Ascendente(rs)
    ensures multiset(InsertarPorFecha(x, rs)) == multiset(rs) + multiset{x}
  {
    if rs != [] && !Precede(x, rs[0]) {
      InsertarPorFechaMultiset(x, rs[1..]);
      assert rs == [rs[0]] + rs[1..];
    }
  }

  /** The rows of the download, by date and start time. */
  function OrdenarPorFecha(rs: seq<Reserva>): (r: seq<Reserva>)
    ensures Ascendente(r)
  {
    if rs == [] then [] else InsertarPorFecha(rs[0], OrdenarPorFecha(rs[1..]))
  }

  lemma {:induction false} OrdenarPorFechaMultiset(rs: seq<Reserva>)
    ensures multiset(OrdenarPorFecha(rs)) == multiset(rs)
  {
    if rs != [] {
      OrdenarPorFechaMultiset(rs[1..]);
      InsertarPorFechaMultiset(rs[0], OrdenarPorFecha(rs[1..]));
      assert rs == [rs[0]] + rs[1..];
    }
  }

  lemma {:induction false} ContarConcat(a: seq<Reserva>, b: seq<Reserva>, e: string)
    ensures Contar(a + b, e) == Contar(a, e) + Contar(b, e)
    ensures SumaCant(a + b) == SumaCant(a) + SumaCant(b)
  {
    if b != [] {
      var w := b[..|b| - 1];
      assert (a + b)[..|a + b| - 1] == a + w;
      ContarConcat(a, w, e);
    } else {
      assert a + b == a;
    }
  }

  lemma {:induction false} InsertarPorFechaCuenta(x: Reserva, rs: seq<Reserva>, e: string)
    requires Ascendente(rs)
    ensures Contar(InsertarPorFecha(x, rs), e) == Contar([x] + rs, e)
    ensures SumaCant(InsertarPorFecha(x, rs)) == SumaCant([x] + rs)
  {
    if rs != [] && !Precede(x, rs[0]) {
      var t := rs[1..];
      var it := InsertarPorFecha(x, t);
      InsertarPorFechaCuenta(x, t, e);
      assert InsertarPorFecha(x, rs) == [rs[0]] + it;
      ContarConcat([rs[0]], it, e);
      ContarConcat([x], t, e);
      assert rs == [rs[0]] + t;
      ContarConcat([rs[0]], t, e);
      ContarConcat([x], rs, e);
    }
  }

  /** Sorting keeps every count and the quantity sum. */
  lemma {:induction false} OrdenarPorFechaCuenta(rs: seq<Reserva>, e: string)
    ensures Contar(OrdenarPorFecha(rs), e) == Contar(rs, e)
    ensures SumaCant(OrdenarPorFecha(rs)) == SumaCant(rs)
  {
    if rs != [] {
      var o := OrdenarPorFecha(rs[1..]);
      OrdenarPorFechaCuenta(rs[1..], e);
      InsertarPorFechaCuenta(rs[0], o, e);
      ContarConcat([rs[0]], o, e);
      ContarConcat([rs[0]], rs[1..], e);
      assert rs == [rs[0]] + rs[1..];
    }
  }

  // ---------------------------------------------------------------
  // The spreadsheet
  // ---------------------------------------------------------------

  datatype Valor = Texto(s: string) | Numero(n: int)

  /** Cells by (row, column), both counted from 1. */
  type Celdas = map<(nat, nat), Valor>

  /** The workbook: the sheet's title, its cells and the file name. */
  datatype Libro = Libro(titulo: string, celdas: Celdas, archivo: string)

  /** Columns 1 .. |vals| of `row` hold `vals`. */
  predicate FilaEscrita(h: Celdas, row: nat, vals: seq<Valor>) {
    forall c | 1 <= c <= |vals| :: (row, c) in h && h[(row, c)] == vals[c - 1]
  }

  /** Zero-padded to at least `w` digits, as `%d`, `%m`, `%H` and `%M` print. */
  function Pad(n: nat, w: nat): (r: string)
    ensures |r| == if |NatToString(n)| >= w then |NatToString(n)| else w
    ensures forall i | 0 <= i < |r| :: IsDigit(r[i])
  {
    var d := NatToString(n);
    if |d| >= w then d else seq(w - |d|, _ => '0') + d
  }

  /** Leading zeros do not change a run of digits' value. */
  lemma {:induction false} CerosALaIzquierda(z: string, d: string)
    requires forall i | 0 <= i < |z| :: z[i] == '0'
    ensures DigitsValue(z + d) == DigitsValue(d)
  {
    if d == [] {
      assert z + d == z;
      if z != [] {
        CerosALaIzquierda(z[..|z| - 1], []);
        assert z[..|z| - 1] + [] == z[..|z| - 1];
      }
    } else {
      CerosALaIzquierda(z, d[..|d| - 1]);
      assert (z + d)[..|z + d| - 1] == z + d[..|d| - 1];
    }
  }

  /** The padded text reads back as the number. */
  lemma PadValue(n: nat, w: nat)
    ensures DigitsValue(Pad(n, w)) == n
  {
    NatToStringValue(n);
    var d := NatToString(n);
    if |d| < w {
      CerosALaIzquierda(seq(w - |d|, _ => '0'), d);
    }
  }

  /** `strftime('%d/%m/%Y')`. */
  function FormatoFecha(d: Date): string {
    Pad(if d.day < 0 then 0 else d.day, 2) + "/" + Pad(if d.month < 0 then 0 else d.month, 2) + "/"
    + (if d.year < 0 then IntToString(d.year) else Pad(d.year, 4))
  }

  /** `strftime('%H:%M')` of a time of day in seconds. */
  function FormatoHora(t: TimeOfDay): string {
    Pad(t / 3600, 2) + ":" + Pad(t % 3600 / 60, 2)
  }

  /** The twelve cells of one detail row. */
  function Fila(c: Catalog, r: Reserva): (vals: seq<Valor>)
    ensures |vals| == 12
  {
    [Texto(FormatoFecha(r.fechaUso)), Texto(FormatoHora(r.horaInicio)), Texto(FormatoHora(r.horaFin)),
     Texto(NombreDocente(c, r)), Texto(NombreCarrera(c, r)), Texto(NombreAsignatura(c, r)),
     Texto(NombreBloque(c, r)), Texto(NombreAula(c, r)),
     Numero(r.cantSolicitada), Texto(r.responsableEntrega), Texto(r.telefonoContacto), Texto(r.estadoReserva)]
  }

  function Encabezados(): seq<Valor> {
    [Texto("Fecha"), Texto("Hora Inicio"), Texto("Hora Fin"), Texto("Docente"), Texto("Carrera"),
     Texto("Asignatura"), Texto("Bloque"), Texto("Aula"), Texto("Cantidad"), Texto("Responsable"),
     Texto("Teléfono"), Texto("Estado")]
  }

  /** The rows of the download. */
  function Detalle(db: Db, p: Periodo): seq<Reserva> {
    OrdenarPorFecha(DelMes(db, p))
  }

  // The fixed texts of the sheet.
  const EtiquetaEstadisticas: string := "ESTADÍSTICAS GENERALES"
  const EtiquetaTotal: string := "Total de Reservas:"
  const EtiquetaAprobadas: string := "Aprobadas:"
  const EtiquetaRechazadas: string := "Rechazadas:"
  const EtiquetaPendientes: string := "Pendientes:"
  const EtiquetaEquipos: string := "Total Equipos Solicitados:"
  const EtiquetaDetalle: string := "DETALLE DE RESERVAS"

  /** Row `row` of the sheet's head: the title, the generation time, the
      statistics block written from `stats_row` 5 on, the detail heading at
      `detail_row` (three rows below the last statistic) and the column
      headers at `header_row` just under it. */
  function FilaCabecera(row: nat, nombre: string, anio: int, generado: string, rows: seq<Reserva>): (vals: seq<Valor>)
    ensures |vals| <= 12
  {
    if row == 1 then [Texto("REPORTE DE RESERVAS DE CHROMEBOOKS - " + Upper(nombre) + " " + IntToString(anio))]
    else if row == 2 then [Texto("Generado el: " + generado)]
    else if row == 4 then [Texto(EtiquetaEstadisticas)]
    else if row == 5 then [Texto(EtiquetaTotal), Numero(|rows|)]
    else if row == 6 then [Texto(EtiquetaAprobadas), Numero(Contar(rows, Aprobada))]
    else if row == 7 then [Texto(EtiquetaRechazadas), Numero(Contar(rows, Rechazada))]
    else if row == 8 then [Texto(EtiquetaPendientes), Numero(Contar(rows, Pendiente))]
    else if row == 9 then [Texto(EtiquetaEquipos), Numero(SumaCant(rows))]
    else if row == 12 then [Texto(EtiquetaDetalle)]
    else if row == 13 then Encabezados()
    else []
  }

  /** Rows 1 to 13 of the sheet. */
  function Cabecera(nombre: string, anio: int, generado: string, rows: seq<Reserva>): (f: seq<seq<Valor>>)
    ensures |f| == 13
    ensures forall j | 0 <= j < 13 :: f[j] == FilaCabecera(j + 1, nombre, anio, generado, rows)
  {
    seq(13, j requires 0 <= j < 13 => FilaCabecera(j + 1, nombre, anio, generado, rows))
  }

  /** The detail rows, one per reservation. */
  function Filas(c: Catalog, rows: seq<Reserva>): (f: seq<seq<Valor>>)
    ensures |f| == |rows|
    ensures forall j | 0 <= j < |rows| :: f[j] == Fila(c, rows[j])
  {
    seq(|rows|, j requires 0 <= j < |rows| => Fila(c, rows[j]))
  }

  /** The rows `cab` from row 1 on, the rows `filas` just below them, and
      no other cell. */
  predicate Hoja(h: Celdas, cab: seq<seq<Valor>>, filas: seq<seq<Valor>>) {
    && (forall j | 0 <= j < |cab| :: FilaEscrita(h, 1 + j, cab[j]))
    && (forall j | 0 <= j < |filas| :: FilaEscrita(h, 1 + |cab| + j, filas[j]))
    && (forall k | k in h :: 1 <= k.0 < 1 + |cab| + |filas| && 1 <= k.1 <= 12)
  }

  /** The finished sheet of month `p`: rows 1 to 13 as above, then from
      row 14 on one row per reservation of the month in date order, and no
      other cell. */
  predicate HojaDelMes(db: Db, p: Periodo, generado: string, l: Libro)
    requires MonthNameIndex(p.mes)
  {
    var rows := Detalle(db, p);
    var nombre := MonthName(p.mes);
    && l.titulo == "Reporte " + nombre + " " + IntToString(p.anio)
    && l.archivo == "Reporte_Chromebooks_" + nombre + "_" + IntToString(p.anio) + ".xlsx"
    && Hoja(l.celdas, Cabecera(nombre, p.anio, generado, rows), Filas(db.catalog, rows))
  }

  predicate Tiene(h: Celdas, row: nat, col: nat, v: Valor) {
    (row, col) in h && h[(row, col)] == v
  }

  lemma HojaCabecera(h: Celdas, cab: seq<seq<Valor>>, filas: seq<seq<Valor>>, j: nat)
    requires Hoja(h, cab, filas) && j < |cab|
    ensures FilaEscrita(h, 1 + j, cab[j])
  {
  }

  lemma HojaFila(h: Celdas, cab: seq<seq<Valor>>, filas: seq<seq<Valor>>, j: nat)
    requires Hoja(h, cab, filas) && j < |filas|
    ensures FilaEscrita(h, 1 + |cab| + j, filas[j])
  {
  }

  lemma FilaCelda(h: Celdas, row: nat, vals: seq<Valor>, c: nat)
    requires FilaEscrita(h, row, vals) && 1 <= c <= |vals|
    ensures Tiene(h, row, c, vals[c - 1])
  {
  }

  /** Columns 9 to 12 of a detail row hold the reservation's own fields. */
  lemma FilaCampos(c: Catalog, r: Reserva)
    ensures Fila(c, r)[8] == Numero(r.cantSolicitada)
    ensures Fila(c, r)[9] == Texto(r.responsableEntrega)
    ensures Fila(c, r)[10] == Texto(r.telefonoContacto)
    ensures Fila(c, r)[11] == Texto(r.estadoReserva)
  {
  }

  /** Columns 4 to 8 of a detail row name the teacher, the career, the
      subject, the block of the classroom and the classroom. */
  lemma FilaNombres(c: Catalog, r: Reserva)
    requires r.usuario in c.usuarios && r.carrera in c.carreras && r.asignatura in c.asignaturas
    requires r.aula in c.aulas && c.aulas[r.aula].bloque in c.bloques
    ensures Fila(c, r)[3..8] == [Texto(c.usuarios[r.usuario].nomCompleto), Texto(c.carreras[r.carrera].nomCarrera),
                                Texto(c.asignaturas[r.asignatura]), Texto(c.bloques[c.aulas[r.aula].bloque]),
                                Texto(c.aulas[r.aula].nomAula)]
  {
  }

  function Pow10(w: nat): nat {
    if w == 0 then 1 else 10 * Pow10(w - 1)
  }

  /** A number below 10^w has at most w digits. */
  lemma {:induction false} NatToStringShort(n: nat, w: nat)
    requires 1 <= w && n < Pow10(w)
    ensures |NatToString(n)| <= w
  {
    if n >= 10 {
      assert Pow10(1) == 10;
      NatToStringShort(n / 10, w - 1);
    }
  }

  /** A number below 10^w is padded to exactly w digits that read back as it. */
  lemma PadFits(n: nat, w: nat)
    requires 1 <= w && n < Pow10(w)
    ensures |Pad(n, w)| == w && DigitsValue(Pad(n, w)) == n
  {
    NatToStringShort(n, w);
    PadValue(n, w);
  }

  /** Column 1 of a detail row is the date as `dd/mm/yyyy`: ten characters,
      slashes at positions 2 and 5, and digit groups that read as the day,
      the month and the year. */
  lemma FilaFecha(c: Catalog, r: Reserva)
    requires 1 <= r.fechaUso.day <= 31 && 1 <= r.fechaUso.month <= 12 && 1 <= r.fechaUso.year <= 9999
    ensures var t := FormatoFecha(r.fechaUso);
      && Fila(c, r)[0] == Texto(t)
      && |t| == 10 && t[2] == '/' && t[5] == '/'
      && (forall i | 0 <= i < 10 && i != 2 && i != 5 :: IsDigit(t[i]))
      && DigitsValue(t[..2]) == r.fechaUso.day
      && DigitsValue(t[3..5]) == r.fechaUso.month
      && DigitsValue(t[6..]) == r.fechaUso.year
  {
    var d := r.fechaUso;
    assert Pow10(2) == 100 && Pow10(4) == 10000 by {
      assert Pow10(1) == 10;
      assert Pow10(3) == 1000;
    }
    PadFits(d.day, 2);
    PadFits(d.month, 2);
    PadFits(d.year, 4);
    var t := FormatoFecha(d);
    assert t == Pad(d.day, 2) + "/" + Pad(d.month, 2) + "/" + Pad(d.year, 4);
    assert t[..2] == Pad(d.day, 2);
    assert t[3..5] == Pad(d.month, 2);
    assert t[6..] == Pad(d.year, 4);
  }

  /** `%H:%M` of a time of day: five characters, a colon at position 2, and
      digit groups that read as the hour and the minute. */
  lemma HoraTexto(h: TimeOfDay)
    ensures var t := FormatoHora(h);
      && |t| == 5 && t[2] == ':'
      && (forall i | 0 <= i < 5 && i != 2 :: IsDigit(t[i]))
      && DigitsValue(t[..2]) == h / 3600 && h / 3600 < 24
      && DigitsValue(t[3..]) == h % 3600 / 60 && h % 3600 / 60 < 60
  {
    assert Pow10(2) == 100 by { assert Pow10(1) == 10; }
    PadFits(h / 3600, 2);
    PadFits(h % 3600 / 60, 2);
    var t := FormatoHora(h);
    assert t[..2] == Pad(h / 3600, 2);
    assert t[3..] == Pad(h % 3600 / 60, 2);
  }

  /** Columns 2 and 3 of a detail row are the start and end times as `%H:%M`. */
  lemma FilaHoras(c: Catalog, r: Reserva)
    ensures Fila(c, r)[1] == Texto(FormatoHora(r.horaInicio))
    ensures Fila(c, r)[2] == Texto(FormatoHora(r.horaFin))
    ensures DigitsValue(FormatoHora(r.horaInicio)[..2]) == r.horaInicio / 3600
    ensures DigitsValue(FormatoHora(r.horaInicio)[3..]) == r.horaInicio % 3600 / 60
    ensures DigitsValue(FormatoHora(r.horaFin)[..2]) == r.horaFin / 3600
    ensures DigitsValue(FormatoHora(r.horaFin)[3..]) == r.horaFin % 3600 / 60
  {
    HoraTexto(r.horaInicio);
    HoraTexto(r.horaFin);
  }

  /** The statistics cells of a finished sheet, column B of rows 5 to 9. */
  lemma HojaEstadisticas(cab: seq<seq<Valor>>, filas: seq<seq<Valor>>, rows: seq<Reserva>, h: Celdas)
    requires Hoja(h, cab, filas) && |cab| == 13
    requires cab[3] == [Texto(EtiquetaEstadisticas)]
    requires cab[4] == [Texto(EtiquetaTotal), Numero(|rows|)]
    requires cab[5] == [Texto(EtiquetaAprobadas), Numero(Contar(rows, Aprobada))]
    requires cab[6] == [Texto(EtiquetaRechazadas), Numero(Contar(rows, Rechazada))]
    requires cab[7] == [Texto(EtiquetaPendientes), Numero(Contar(rows, Pendiente))]
    requires cab[8] == [Texto(EtiquetaEquipos), Numero(SumaCant(rows))]
    ensures Tiene(h, 4, 1, Texto(EtiquetaEstadisticas))
    ensures Tiene(h, 5, 2, Numero(|rows|))
    ensures Tiene(h, 6, 2, Numero(Contar(rows, Aprobada)))
    ensures Tiene(h, 7, 2, Numero(Contar(rows, Rechazada)))
    ensures Tiene(h, 8, 2, Numero(Contar(rows, Pendiente)))
    ensures Tiene(h, 9, 2, Numero(SumaCant(rows)))
  {
    var f := filas;
    HojaCabecera(h, cab, f, 3);
    FilaCelda(h, 4, cab[3], 1);
    HojaCabecera(h, cab, f, 4);
    FilaCelda(h, 5, cab[4], 2);
    HojaCabecera(h, cab, f, 5);
    FilaCelda(h, 6, cab[5], 2);
    HojaCabecera(h, cab, f, 6);
    FilaCelda(h, 7, cab[6], 2);
    HojaCabecera(h, cab, f, 7);
    FilaCelda(h, 8, cab[7], 2);
    HojaCabecera(h, cab, f, 8);
    FilaCelda(h, 9, cab[8], 2);
  }

  /** Columns 9 to 12 of the detail rows of a finished sheet. */
  lemma HojaDetalle(nombre: string, anio: int, generado: string, c: Catalog, rows: seq<Reserva>, h: Celdas)
    requires Hoja(h, Cabecera(nombre, anio, generado, rows), Filas(c, rows))
    ensures forall j | 0 <= j < |rows| ::
              && Tiene(h, 14 + j, 9, Numero(rows[j].cantSolicitada))
              && Tiene(h, 14 + j, 10, Texto(rows[j].responsableEntrega))
              && Tiene(h, 14 + j, 11, Texto(rows[j].telefonoContacto))
              && Tiene(h, 14 + j, 12, Texto(rows[j].estadoReserva))
  {
    var cab := Cabecera(nombre, anio, generado, rows);
    var f := Filas(c, rows);
    forall j | 0 <= j < |rows|
      ensures && Tiene(h, 14 + j, 9, Numero(rows[j].cantSolicitada))
              && Tiene(h, 14 + j, 10, Texto(rows[j].responsableEntrega))
              && Tiene(h, 14 + j, 11, Texto(rows[j].telefonoContacto))
              && Tiene(h, 14 + j, 12, Texto(rows[j].estadoReserva))
    {
      HojaFila(h, cab, f, j);
      FilaCelda(h, 14 + j, f[j], 9);
      FilaCelda(h, 14 + j, f[j], 10);
      FilaCelda(h, 14 + j, f[j], 11);
      FilaCelda(h, 14 + j, f[j], 12);
      FilaCampos(c, rows[j]);
    }
  }

  /** Writes `vals` into columns 1 .. |vals| of `row`, one cell at a time. */
  method EscribirFila(h: Celdas, row: nat, vals: seq<Valor>) returns (h': Celdas)
    ensures FilaEscrita(h', row, vals)
    ensures forall k | k in h && !(k.0 == row && 1 <= k.1 <= |vals|) :: k in h' && h'[k] == h[k]
    ensures forall k | k in h' :: k in h || (k.0 == row && 1 <= k.1 <= |vals|)
  {
    h' := h;
    var c := 1;
    while c <= |vals|
      invariant 1 <= c <= |vals| + 1
      invariant forall d | 1 <= d < c :: (row, d) in h' && h'[(row, d)] == vals[d - 1]
      invariant forall k | k in h && !(k.0 == row && 1 <= k.1 < c) :: k in h' && h'[k] == h[k]
      invariant forall k | k in h' :: k in h || (k.0 == row && 1 <= k.1 < c)
    {
      h' := h'[(row, c) := vals[c - 1]];
      c := c + 1;
    }
  }

  /** Writes `filas[j]` into row `desde + j`, below every cell already
      written, keeping those. */
  method EscribirFilas(fijas: Celdas, desde: nat, filas: seq<seq<Valor>>) returns (ws: Celdas)
    requires forall k | k in fijas :: k.0 < desde
    requires forall j | 0 <= j < |filas| :: |filas[j]| <= 12
    ensures forall k | k in fijas :: k in ws && ws[k] == fijas[k]
    ensures forall k | k in ws :: k in fijas || (desde <= k.0 < desde + |filas| && 1 <= k.1 <= 12)
    ensures forall j | 0 <= j < |filas| :: FilaEscrita(ws, desde + j, filas[j])
  {
    ws := fijas;
    var row := desde;
    var i := 0;
    while i < |filas|
      invariant 0 <= i <= |filas| && row == desde + i
      invariant forall k | k in fijas :: k in ws && ws[k] == fijas[k]
      invariant forall k | k in ws :: k in fijas || (desde <= k.0 < row && 1 <= k.1 <= 12)
      invariant forall j | 0 <= j < i :: FilaEscrita(ws, desde + j, filas[j])
    {
      ghost var antes := ws;
      ws := EscribirFila(ws, row, filas[i]);
      forall j | 0 <= j < i ensures FilaEscrita(ws, desde + j, filas[j]) {
        assert FilaEscrita(antes, desde + j, filas[j]);
      }
      row := row + 1;
      i := i + 1;
    }
  }

  /** The whole sheet: `cab` from row 1 on, then `filas`. */
  method EscribirHoja(cab: seq<seq<Valor>>, filas: seq<seq<Valor>>) returns (ws: Celdas)
    requires forall j | 0 <= j < |cab| :: |cab[j]| <= 12
    requires forall j | 0 <= j < |filas| :: |filas[j]| <= 12
    ensures Hoja(ws, cab, filas)
  {
    var fijas := EscribirFilas(map[], 1, cab);
    ws := EscribirFilas(fijas, 1 + |cab|, filas);
    forall j | 0 <= j < |cab| ensures FilaEscrita(ws, 1 + j, cab[j]) {
      assert FilaEscrita(fijas, 1 + j, cab[j]);
    }
  }

  /** `descargar_reporte_excel`: only an administrator; the month and year
      must be integers (there is no fallback here), the month must index
      `month_name`, and the year must be one the date lookup can bound. */
  method DescargarReporteExcel(db: Db, s: Session, mes: Option<string>, anio: Option<string>, now: Periodo,
                               generado: string) returns (r: Result<Libro>)
    ensures !IsAdmin(s) ==> r == Err(AccessDenied)
    ensures IsAdmin(s) && PeriodoExcel(mes, anio, now).Err? ==> r == Err(InvalidParameter)
    ensures r.Ok? <==> IsAdmin(s) && PeriodoExcel(mes, anio, now).Ok? && MonthNameIndex(PeriodoExcel(mes, anio, now).value.mes)
                       && YearQueryable(PeriodoExcel(mes, anio, now).value.anio)
    ensures r.Ok? ==> HojaDelMes(db, PeriodoExcel(mes, anio, now).value, generado, r.value)
  {
    if !IsAdmin(s) {
      return Err(AccessDenied);
    }
    var pe := PeriodoExcel(mes, anio, now);
    if pe.Err? {
      return Err(InvalidParameter);
    }
    var mesN, anioN := pe.value.mes, pe.value.anio;
    if !MonthNameIndex(mesN) || !YearQueryable(anioN) {
      return Err(InvalidParameter);
    }
    var nombre := MonthName(mesN);
    var titulo := "Reporte " + nombre + " " + IntToString(anioN);
    var reservas := Detalle(db, pe.value);
    var ws := EscribirHoja(Cabecera(nombre, anioN, generado, reservas), Filas(db.catalog, reservas));
    var archivo := "Reporte_Chromebooks_" + nombre + "_" + IntToString(anioN) + ".xlsx";
    r := Ok(Libro(titulo, ws, archivo));
  }

  /** The download's statistics are the report page's figures for the same
      month, and its detail rows are the month's reservations, each once,
      in date order. */
  lemma ExcelCoincide(db: Db, s: Session, mes: Option<string>, anio: Option<string>, now: Periodo)
    requires VerReportes(db, s, mes, anio, now).Ok? && PeriodoExcel(mes, anio, now).Ok?
    ensures var R := VerReportes(db, s, mes, anio, now).value;
      var rows := Detalle(db, PeriodoExcel(mes, anio, now).value);
      && PeriodoExcel(mes, anio, now).value == R.periodo
      && |rows| == R.total
      && Contar(rows, Aprobada) == R.aprobadas
      && Contar(rows, Rechazada) == R.rechazadas
      && Contar(rows, Pendiente) == R.pendientes
      && SumaCant(rows) == R.totalEquipos
      && multiset(rows) == multiset(DelMes(db, R.periodo))
      && Ascendente(rows)
  {
    var p := PeriodoExcel(mes, anio, now).value;
    var rs := DelMes(db, p);
    OrdenarPorFechaMultiset(rs);
    assert |multiset(OrdenarPorFecha(rs))| == |multiset(rs)|;
    OrdenarPorFechaCuenta(rs, Aprobada);
    OrdenarPorFechaCuenta(rs, Rechazada);
    OrdenarPorFechaCuenta(rs, Pendiente);
  }

  /** The statistics rows of the sheet's head. */
  lemma CabeceraEstadisticas(nombre: string, anio: int, generado: string, rows: seq<Reserva>)
    ensures var cab := Cabecera(nombre, anio, generado, rows);
      && cab[3] == [Texto(EtiquetaEstadisticas)]
      && cab[4] == [Texto(EtiquetaTotal), Numero(|rows|)]
      && cab[5] == [Texto(EtiquetaAprobadas), Numero(Contar(rows, Aprobada))]
      && cab[6] == [Texto(EtiquetaRechazadas), Numero(Contar(rows, Rechazada))]
      && cab[7] == [Texto(EtiquetaPendientes), Numero(Contar(rows, Pendiente))]
      && cab[8] == [Texto(EtiquetaEquipos), Numero(SumaCant(rows))]
  {
    var cab := Cabecera(nombre, anio, generado, rows);
    assert cab[3] == [Texto(EtiquetaEstadisticas)];
    assert cab[4] == [Texto(EtiquetaTotal), Numero(|rows|)];
    assert cab[5] == [Texto(EtiquetaAprobadas), Numero(Contar(rows, Aprobada))];
    assert cab[6] == [Texto(EtiquetaRechazadas), Numero(Contar(rows, Rechazada))];
    assert cab[7] == [Texto(EtiquetaPendientes), Numero(Contar(rows, Pendiente))];
  }

  /** A downloaded sheet shows, in column B of rows 5 to 9, the report
      page's figures for the same parameters. */
  lemma DescargaComoPagina(db: Db, s: Session, mes: Option<string>, anio: Option<string>, now: Periodo,
                           generado: string, l: Libro)
    requires VerReportes(db, s, mes, anio, now).Ok? && PeriodoExcel(mes, anio, now).Ok?
    requires MonthNameIndex(PeriodoExcel(mes, anio, now).value.mes)
    requires HojaDelMes(db, PeriodoExcel(mes, anio, now).value, generado, l)
    ensures var R := VerReportes(db, s, mes, anio, now).value;
      && Tiene(l.celdas, 5, 2, Numero(R.total))
      && Tiene(l.celdas, 6, 2, Numero(R.aprobadas))
      && Tiene(l.celdas, 7, 2, Numero(R.rechazadas))
      && Tiene(l.celdas, 8, 2, Numero(R.pendientes))
      && Tiene(l.celdas, 9, 2, Numero(R.totalEquipos))
  {
    var p := PeriodoExcel(mes, anio, now).value;
    var rows := Detalle(db, p);
    var cab := Cabecera(MonthName(p.mes), p.anio, generado, rows);
    CabeceraEstadisticas(MonthName(p.mes), p.anio, generado, rows);
    HojaEstadisticas(cab, Filas(db.catalog, rows), rows, l.celdas);
    ExcelCoincide(db, s, mes, anio, now);
  }
}
