/**
 * ActorPrestamo: the synchronous actor that grants loans. It builds a primary and a
 * replica engine, a ReplicaManager over them, and serves each PRESTAMO request with the
 * composite engine, answering OK with the new loan's id, or ERROR with a reason. Every
 * answer carries the actor's Lamport time, which moves past the time stamp of the
 * request (or by one when the request has none) before anything else happens.
 */
module Prestamos {
  import opened Wrappers
  import opened Text
  import opened Entities
  import opened Repositories
  import opened Storage
  import opened Replication
  import opened ReplicaManagement
  import opened Utils

  // ---------------------------------------------------------------- Lamport time

  /** `x + 1` on a Java long: LONG_MAX wraps to LONG_MIN. */
  function Siguiente(x: int): (r: int)
    requires LONG_MIN <= x <= LONG_MAX
    ensures LONG_MIN <= r <= LONG_MAX
    ensures x < LONG_MAX ==> r == x + 1
  {
    if x == LONG_MAX then LONG_MIN else x + 1
  }

  /** The clock after a request: `max(lamport, ts) + 1` when it carries a time stamp, `lamport + 1` otherwise. */
  function Lamport(lamport: int, ts: Option<int>): (r: int)
    requires LONG_MIN <= lamport <= LONG_MAX
    requires ts.Some? ==> LONG_MIN <= ts.value <= LONG_MAX
    ensures LONG_MIN <= r <= LONG_MAX
  {
    match ts
    case None => Siguiente(lamport)
    case Some(t) => Siguiente(if lamport < t then t else lamport)
  }

  /** Away from the top of the long range, the clock moves strictly past its old value and past the request's stamp. */
  lemma LamportAvanza(lamport: int, ts: Option<int>)
    requires LONG_MIN <= lamport < LONG_MAX
    requires ts.Some? ==> LONG_MIN <= ts.value < LONG_MAX
    ensures Lamport(lamport, ts) > lamport
    ensures ts.Some? ==> Lamport(lamport, ts) > ts.value
    ensures ts.None? ==> Lamport(lamport, ts) == lamport + 1
  {
  }

  /** At the top of the long range the clock wraps: a request stamped LONG_MAX sends it to LONG_MIN. */
  lemma LamportDesborda(lamport: int)
    requires LONG_MIN <= lamport <= LONG_MAX
    ensures Lamport(lamport, Some(LONG_MAX)) == LONG_MIN
  {
  }

  // ---------------------------------------------------------------- replies

  const MOTIVO_FORMATO: string := "FormatoIncorrecto"
  const MOTIVO_SIN_DISPONIBILIDAD: string := "SinDisponibilidad"
  const MOTIVO_NO_DISPONIBLE: string := "GA_NoDisponible"

  /** "ERROR;motivo=<motivo>;ts=<ts>". */
  function Error(motivo: string, ts: int): string
  {
    "ERROR;motivo=" + motivo + ";ts=" + FormatLong(ts)
  }

  /** "OK;prestamoId=<id>;ts=<ts>". */
  function Ok(id: string, ts: int): string
  {
    "OK;prestamoId=" + id + ";ts=" + FormatLong(ts)
  }

  /** The four fields a request must carry, or nothing when one of them is missing. */
  function Solicitud(kv: map<string, string>): (r: Option<(string, string, string, string)>)
    ensures r.Some? <==> "usuarioId" in kv && "libroCodigo" in kv && "inicio" in kv && "fin" in kv
    ensures r.Some? ==> r.value == (kv["usuarioId"], kv["libroCodigo"], kv["inicio"], kv["fin"])
  {
    if "usuarioId" in kv && "libroCodigo" in kv && "inicio" in kv && "fin" in kv
    then Some((kv["usuarioId"], kv["libroCodigo"], kv["inicio"], kv["fin"]))
    else None
  }

  /**
   * The reply to a complete request served by an engine with the given availability,
   * where `o` is the loan Otorgar grants, `id` its id, and `ts` the clock.
   */
  function Contestar(disponible: bool, o: Option<PrestamoRec>, id: string, ts: int): string
  {
    if !disponible then Error(MOTIVO_NO_DISPONIBLE, ts)
    else if o.None? then Error(MOTIVO_SIN_DISPONIBILIDAD, ts)
    else Ok(id, ts)
  }

  /**
   * The reply to a request whose fields are `kv`, served by an engine with the given
   * availability and tables, where `id` is the id a grant would get and `ts` the clock
   * after the request.
   */
  function Responder(kv: map<string, string>, disponible: bool, t: Tables, id: string, ts: int): string
  {
    match Solicitud(kv)
    case None => Error(MOTIVO_FORMATO, ts)
    case Some(s) => Contestar(disponible, Otorgar(t, s.0, s.1, s.2, s.3, id).0, id, ts)
  }

  /** Each reply is a message of three pieces in the format parseKeyValues reads. */
  lemma ErrorFormateado(motivo: string, ts: int)
    ensures Error(motivo, ts) == Formatear("ERROR", [("motivo", motivo), ("ts", FormatLong(ts))])
  {
    FormatearDos("ERROR", ("motivo", motivo), ("ts", FormatLong(ts)));
  }

  lemma OkFormateado(id: string, ts: int)
    ensures Ok(id, ts) == Formatear("OK", [("prestamoId", id), ("ts", FormatLong(ts))])
  {
    FormatearDos("OK", ("prestamoId", id), ("ts", FormatLong(ts)));
  }

  /** A field value that reads back from a message: trimmed and free of ';'. */
  predicate Legible(v: string)
  {
    ';' !in v && Trimmed(v)
  }

  /** An ERROR reply carries the clock it was written with. */
  lemma ErrorLlevaTs(motivo: string, ts: int)
    requires Legible(motivo) && motivo != [] && LONG_MIN <= ts <= LONG_MAX
    ensures ExtractTs(Some(Error(motivo, ts))) == Some(ts)
  {
    ErrorFormateado(motivo, ts);
    ExtractTsDeFormateado("ERROR", [("motivo", motivo)], ts);
  }

  /** An OK reply carries the clock it was written with. */
  lemma OkLlevaTs(id: string, ts: int)
    requires Legible(id) && LONG_MIN <= ts <= LONG_MAX
    ensures ExtractTs(Some(Ok(id, ts))) == Some(ts)
  {
    OkFormateado(id, ts);
    ExtractTsDeFormateado("OK", [("prestamoId", id)], ts);
  }

  /** Every reply carries the actor's clock: extractTs on the reply gives `ts` back. */
  lemma RespuestaLlevaTs(kv: map<string, string>, disponible: bool, t: Tables, id: string, ts: int)
    requires Legible(id) && LONG_MIN <= ts <= LONG_MAX
    ensures ExtractTs(Some(Responder(kv, disponible, t, id, ts))) == Some(ts)
  {
    match Solicitud(kv)
    case None =>
      ErrorLlevaTs(MOTIVO_FORMATO, ts);
    case Some(s) =>
      if !disponible {
        ErrorLlevaTs(MOTIVO_NO_DISPONIBLE, ts);
      } else if Otorgar(t, s.0, s.1, s.2, s.3, id).0.None? {
        ErrorLlevaTs(MOTIVO_SIN_DISPONIBILIDAD, ts);
      } else {
        OkLlevaTs(id, ts);
      }
  }

  /** An OK reply gives the client the new loan's id back. */
  lemma OkLlevaId(id: string, ts: int)
    requires Legible(id)
    ensures Valor(Pares(Some(Ok(id, ts))), "prestamoId") == Some(id)
  {
    var s := FormatLong(ts);
    LongLegible(ts);
    OkFormateado(id, ts);
    var ps := [("prestamoId", id), ("ts", s)];
    ParesDeFormatear("OK", ps);
    CargarUno(map[], ps[0]);
    assert ps == [ps[0]] + [ps[1]];
    CargarUltimo(map[], [ps[0]], ps[1]);
  }

  /** "PRESTAMO;usuarioId=..;libroCodigo=..;inicio=..;fin=..;ts=..", the request a client sends. */
  function Peticion(usuarioId: string, libroCodigo: string, inicio: string, fin: string, ts: int): string
  {
    Formatear("PRESTAMO", CamposPeticion(usuarioId, libroCodigo, inicio, fin) + [("ts", FormatLong(ts))])
  }

  /** The four fields of a loan request, in the order the client writes them. */
  function CamposPeticion(usuarioId: string, libroCodigo: string, inicio: string, fin: string): seq<(string, string)>
  {
    [("usuarioId", usuarioId), ("libroCodigo", libroCodigo), ("inicio", inicio), ("fin", fin)]
  }

  /** A request written with its four fields and the clock is read back field for field. */
  lemma SolicitudDePeticion(usuarioId: string, libroCodigo: string, inicio: string, fin: string, ts: int)
    requires Legible(usuarioId) && Legible(libroCodigo) && Legible(inicio) && Legible(fin)
    requires LONG_MIN <= ts <= LONG_MAX
    ensures Solicitud(Pares(Some(Peticion(usuarioId, libroCodigo, inicio, fin, ts)))) == Some((usuarioId, libroCodigo, inicio, fin))
  {
    var campos := CamposPeticion(usuarioId, libroCodigo, inicio, fin);
    var s := FormatLong(ts);
    var todos := campos + [("ts", s)];
    LongLegible(ts);
    assert forall i :: 0 <= i < |todos| ==> Campo(todos[i]);
    ParesDeFormatear("PRESTAMO", todos);
    CargarUltimo(map[], campos, ("ts", s));
    var kv := CargarCuatro(usuarioId, libroCodigo, inicio, fin);
    assert Pares(Some(Peticion(usuarioId, libroCodigo, inicio, fin, ts))) == kv["ts" := s];
  }

  /** A request carries the client's clock: extractTs on it gives `ts` back. */
  lemma PeticionLlevaTs(usuarioId: string, libroCodigo: string, inicio: string, fin: string, ts: int)
    requires Legible(usuarioId) && Legible(libroCodigo) && Legible(inicio) && Legible(fin)
    requires LONG_MIN <= ts <= LONG_MAX
    ensures ExtractTs(Some(Peticion(usuarioId, libroCodigo, inicio, fin, ts))) == Some(ts)
  {
    var campos := CamposPeticion(usuarioId, libroCodigo, inicio, fin);
    assert forall i :: 0 <= i < |campos| ==> Campo(campos[i]);
    ExtractTsDeFormateado("PRESTAMO", campos, ts);
  }

  /** The map the four request fields give. */
  lemma CargarCuatro(usuarioId: string, libroCodigo: string, inicio: string, fin: string)
    returns (kv: map<string, string>)
    ensures kv == Cargar(map[], CamposPeticion(usuarioId, libroCodigo, inicio, fin))
    ensures Solicitud(kv) == Some((usuarioId, libroCodigo, inicio, fin))
  {
    var a, b, c, d := ("usuarioId", usuarioId), ("libroCodigo", libroCodigo), ("inicio", inicio), ("fin", fin);
    CargarUno(map[], a);
    CargarUltimo(map[], [a], b);
    assert [a] + [b] == [a, b];
    CargarUltimo(map[], [a, b], c);
    assert [a, b] + [c] == [a, b, c];
    CargarUltimo(map[], [a, b, c], d);
    assert [a, b, c] + [d] == [a, b, c, d];
    kv := map[][a.0 := a.1][b.0 := b.1][c.0 := c.1][d.0 := d.1];
  }

  // ---------------------------------------------------------------- the private parser

  /**
   * ActorPrestamo's own parseKeyValues: the same loop as Utils.parseKeyValues without the
   * null check; on every message it gives what Utils.parseKeyValues gives.
   */
  method ParseKeyValuesPropio(carga: string) returns (m: map<string, string>)
    ensures m == Pares(Some(carga))
  {
    m := map[];
    var parts := Split(carga, ';');
    var i := 1;
    while i < |parts|
      invariant parts == [] ==> m == map[]
      invariant parts != [] ==> 1 <= i <= |parts| && Agregar(m, parts[i..]) == Agregar(map[], parts[1..])
    {
      var part := parts[i];
      assert parts[i..][1..] == parts[i + 1..];
      var eq := IndexOf(part, '=');
      if eq > 0 {
        m := m[Trim(part[..eq]) := Trim(part[eq + 1..])];
      }
      i := i + 1;
    }
    assert parts != [] ==> parts[i..] == [];
  }

  // ---------------------------------------------------------------- the actor

  /** The books the actor stores in the primary before serving: L1 with two copies, L2 with one. */
  function Precarga(): map<string, LibroRec>
  {
    map["L1" := LibroRec("L1", "El Quijote", "Cervantes", 2), "L2" := LibroRec("L2", "1984", "Orwell", 1)]
  }

  /** The preload of main on a book repository that holds nothing yet: L1 and L2 are saved. */
  method Precargar(repo: InMemoryLibroRepository)
    requires repo.Valid() && repo.libros == map[]
    modifies repo
    ensures repo.Valid() && fresh(repo.libros.Values)
    ensures repo.libros.Keys == Precarga().Keys
    ensures forall c :: c in repo.libros ==> repo.libros[c].View() == Precarga()[c]
  {
    if repo.FindByCodigo("L1") == null {
      var l1 := new Libro("L1", "El Quijote", "Cervantes", 2);
      repo.Save(l1);
    }
    if repo.FindByCodigo("L2") == null {
      var l2 := new Libro("L2", "1984", "Orwell", 1);
      repo.Save(l2);
    }
  }

  /** A new engine over new repositories whose book repository holds L1 and L2. */
  method MotorPrecargado() returns (g: GestorAlmacenamiento)
    ensures fresh(g.Repr()) && g.Valid() && g.disponible && g.Contents == Tables(Precarga(), map[])
  {
    var libroRepo := new InMemoryLibroRepository();
    var prestamoRepo := new InMemoryPrestamoRepository();
    Precargar(libroRepo);
    g := new GestorAlmacenamiento(libroRepo, prestamoRepo);
    assert g.Contents.libros == Precarga();
  }

  /** A new engine over new, empty repositories, sharing nothing with the objects `ajenos` that exist already. */
  method MotorVacio(ghost ajenos: set<object>) returns (g: GestorAlmacenamiento)
    ensures fresh(g.Repr()) && g.Valid() && g.disponible && g.Contents == Tables(map[], map[])
    ensures g.Repr() !! ajenos
  {
    var libroRepo := new InMemoryLibroRepository();
    var prestamoRepo := new InMemoryPrestamoRepository();
    g := new GestorAlmacenamiento(libroRepo, prestamoRepo);
  }

  /**
   * The set-up of main: a primary engine whose books are L1 and L2, an empty replica
   * engine, each over its own repositories, and the ReplicaManager over them (which
   * resynchronises `disco`); the actor then serves with the composite the manager hands
   * out, and its clock starts at 0.
   */
  method Iniciar(disco: Disco, fallaDirectorio: bool, fallaLocks: set<string>, fallaCopia: set<string>)
    returns (rm: ReplicaManager)
    modifies disco
    ensures fresh(rm) && fresh(rm.compuesto) && rm.Valid()
    ensures rm.primariaActiva && rm.compuesto.pendientes == [] && rm.disco == disco
    ensures rm.primaria.disponible && rm.primaria.Contents == Tables(Precarga(), map[])
    ensures rm.replica.disponible && rm.replica.Contents == Tables(map[], map[])
    ensures disco.archivos == Sync(old(disco.archivos), fallaDirectorio, fallaLocks, fallaCopia).1
  {
    var primariaGA := MotorPrecargado();
    var replicaGA := MotorVacio(primariaGA.Repr());
    assert Separados(primariaGA, replicaGA);
    DiscoFuera(disco, primariaGA);
    DiscoFuera(disco, replicaGA);
    rm := new ReplicaManager(primariaGA, replicaGA, disco, fallaDirectorio, fallaLocks, fallaCopia);
  }

  /**
   * The serving engine's answer to a grant, as the actor reads it: raised exactly when it
   * is unavailable, null exactly when Otorgar grants nothing, otherwise a loan with the
   * drawn id; and its tables after the call.
   */
  ghost predicate Atendido(r: Outcome<Prestamo?>, disponible: bool, t0: Tables, t1: Tables, usuarioId: string,
                           libroCodigo: string, inicio: string, fin: string, id: string)
    reads if r.Returned? && r.value != null then {r.value} else {}
  {
    var o := Otorgar(t0, usuarioId, libroCodigo, inicio, fin, id);
    && (r.Returned? <==> disponible)
    && (r.Returned? ==> (r.value == null <==> o.0.None?))
    && (r.Returned? && r.value != null ==> r.value.id == id)
    && t1 == Servir(disponible, t0, o).1
  }

  /** What otorgarPrestamo promises gives what the actor reads from the answer. */
  lemma AtendidoDeOtorgado(r: Outcome<Prestamo?>, disponible: bool, t0: Tables, t1: Tables, usuarioId: string,
                           libroCodigo: string, inicio: string, fin: string, id: string)
    requires Otorgado(r, disponible, t0, t1, usuarioId, libroCodigo, inicio, fin, id)
    ensures Atendido(r, disponible, t0, t1, usuarioId, libroCodigo, inicio, fin, id)
  {
  }

  /** The composite's otorgarPrestamo, as the actor sees it: the serving engine's answer and effect. */
  method Pedir(rm: ReplicaManager, usuarioId: string, libroCodigo: string, inicio: string, fin: string, id: string)
    returns (r: Outcome<Prestamo?>)
    requires rm.Valid()
    modifies rm.compuesto`pendientes, rm.primaria.Repr(), rm.replica.Repr()
    ensures rm.Valid() && rm.primariaActiva == old(rm.primariaActiva)
    ensures rm.disco.archivos == old(rm.disco.archivos)
    ensures rm.primaria.disponible == old(rm.primaria.disponible) && rm.replica.disponible == old(rm.replica.disponible)
    ensures rm.primariaActiva ==>
              && Atendido(r, old(rm.primaria.disponible), old(rm.primaria.Contents), rm.primaria.Contents,
                          usuarioId, libroCodigo, inicio, fin, id)
              && rm.replica.Contents == old(rm.replica.Contents)
              && |rm.compuesto.pendientes| == |old(rm.compuesto.pendientes)| + (if r.Returned? then 1 else 0)
              && old(rm.compuesto.pendientes) <= rm.compuesto.pendientes
    ensures !rm.primariaActiva ==>
              && Atendido(r, old(rm.replica.disponible), old(rm.replica.Contents), rm.replica.Contents,
                          usuarioId, libroCodigo, inicio, fin, id)
              && rm.primaria.Contents == old(rm.primaria.Contents)
              && rm.compuesto.pendientes == old(rm.compuesto.pendientes)
  {
    ManagerFuera(rm, rm.primaria);
    ManagerFuera(rm, rm.replica);
    DiscoFuera(rm.disco, rm.primaria);
    DiscoFuera(rm.disco, rm.replica);
    var gaCompuesto := rm.GetActivo();
    r := gaCompuesto.OtorgarPrestamo(usuarioId, libroCodigo, inicio, fin, id);
    if rm.primariaActiva {
      AtendidoDeOtorgado(r, old(rm.primaria.disponible), old(rm.primaria.Contents), rm.primaria.Contents,
                         usuarioId, libroCodigo, inicio, fin, id);
    } else {
      AtendidoDeOtorgado(r, old(rm.replica.disponible), old(rm.replica.Contents), rm.replica.Contents,
                         usuarioId, libroCodigo, inicio, fin, id);
    }
  }

  /** conmutarAReplica on the manager, as the actor sees it: the tables and the lane stay as they were. */
  method FallarAReplica(rm: ReplicaManager, fallaDirectorio: bool, fallaLocks: set<string>, fallaCopia: set<string>)
    requires rm.Valid()
    modifies rm`primariaActiva, rm.compuesto`primariaActiva, rm.disco
    ensures rm.Valid() && !rm.primariaActiva
    ensures rm.disco.archivos == Sync(old(rm.disco.archivos), fallaDirectorio, fallaLocks, fallaCopia).1
    ensures rm.primaria.Contents == old(rm.primaria.Contents) && rm.replica.Contents == old(rm.replica.Contents)
    ensures rm.compuesto.pendientes == old(rm.compuesto.pendientes)
    ensures rm.primaria.disponible == old(rm.primaria.disponible) && rm.replica.disponible == old(rm.replica.disponible)
  {
    rm.ConmutarAReplica(fallaDirectorio, fallaLocks, fallaCopia);
  }

  /**
   * A complete request: the composite grants the loan; when the serving engine raises,
   * the manager fails over to the replica. The reply is Contestar's.
   */
  method Procesar(rm: ReplicaManager, usuarioId: string, libroCodigo: string, inicio: string, fin: string,
                  id: string, ts: int, fallaDirectorio: bool, fallaLocks: set<string>, fallaCopia: set<string>)
    returns (resp: string)
    requires rm.Valid()
    modifies rm`primariaActiva, rm.compuesto`primariaActiva, rm.compuesto`pendientes
    modifies rm.primaria.Repr(), rm.replica.Repr(), rm.disco
    ensures rm.Valid()
    ensures rm.primaria.disponible == old(rm.primaria.disponible) && rm.replica.disponible == old(rm.replica.disponible)
    ensures old(rm.primariaActiva) ==>
              var o := Otorgar(old(rm.primaria.Contents), usuarioId, libroCodigo, inicio, fin, id);
              && resp == Contestar(old(rm.primaria.disponible), o.0, id, ts)
              && rm.primaria.Contents == Servir(old(rm.primaria.disponible), old(rm.primaria.Contents), o).1
              && rm.replica.Contents == old(rm.replica.Contents)
    ensures !old(rm.primariaActiva) ==>
              var o := Otorgar(old(rm.replica.Contents), usuarioId, libroCodigo, inicio, fin, id);
              && resp == Contestar(old(rm.replica.disponible), o.0, id, ts)
              && rm.replica.Contents == Servir(old(rm.replica.disponible), old(rm.replica.Contents), o).1
              && rm.primaria.Contents == old(rm.primaria.Contents)
    ensures var disponible := if old(rm.primariaActiva) then old(rm.primaria.disponible) else old(rm.replica.disponible);
            && (!disponible ==> !rm.primariaActiva
                                && rm.disco.archivos == Sync(old(rm.disco.archivos), fallaDirectorio, fallaLocks, fallaCopia).1)
            && (disponible ==> rm.primariaActiva == old(rm.primariaActiva) && rm.disco.archivos == old(rm.disco.archivos))
            && (if old(rm.primariaActiva) && disponible
                then |rm.compuesto.pendientes| == |old(rm.compuesto.pendientes)| + 1
                     && old(rm.compuesto.pendientes) <= rm.compuesto.pendientes
                else rm.compuesto.pendientes == old(rm.compuesto.pendientes))
  {
    var r := Pedir(rm, usuarioId, libroCodigo, inicio, fin, id);
    if r.IllegalState? {
      ghost var primaria, replica, pendientes := rm.primaria.Contents, rm.replica.Contents, rm.compuesto.pendientes;
      ghost var dp, dr := rm.primaria.disponible, rm.replica.disponible;
      FallarAReplica(rm, fallaDirectorio, fallaLocks, fallaCopia);
      assert rm.primaria.Contents == primaria && rm.replica.Contents == replica;
      assert rm.primaria.disponible == dp && rm.replica.disponible == dr;
      assert rm.compuesto.pendientes == pendientes;
      resp := Error(MOTIVO_NO_DISPONIBLE, ts);
    } else if r.value == null {
      resp := Error(MOTIVO_SIN_DISPONIBILIDAD, ts);
    } else {
      resp := Ok(r.value.id, ts);
    }
  }

  /**
   * The tables of the serving engine after a request with fields `kv`: unchanged when a
   * field is missing, otherwise what otorgarPrestamo leaves.
   */
  ghost predicate Servido(kv: map<string, string>, disponible: bool, t0: Tables, t1: Tables, id: string)
  {
    match Solicitud(kv)
    case None => t1 == t0
    case Some(s) => t1 == Servir(disponible, t0, Otorgar(t0, s.0, s.1, s.2, s.3, id)).1
  }

  /**
   * What a turn with fields `kv` and clock `ts` does to the manager: neither engine is
   * switched on or off; the reply is
   * Responder's and the serving engine's tables are Servido's, the other engine is left
   * alone; when a complete request finds the serving engine unavailable the manager has
   * failed over, synchronising the files, and otherwise the flag and the files stay; the
   * replication lane grows by one exactly when the primary grants or refuses a complete
   * request.
   */
  twostate predicate Turno(rm: ReplicaManager, kv: map<string, string>, id: string, ts: int, resp: string,
                           fallaDirectorio: bool, fallaLocks: set<string>, fallaCopia: set<string>)
    reads rm, rm.compuesto, rm.primaria, rm.replica, rm.disco
  {
    && rm.primaria.disponible == old(rm.primaria.disponible)
    && rm.replica.disponible == old(rm.replica.disponible)
    && (old(rm.primariaActiva) ==>
          && resp == Responder(kv, old(rm.primaria.disponible), old(rm.primaria.Contents), id, ts)
          && Servido(kv, old(rm.primaria.disponible), old(rm.primaria.Contents), rm.primaria.Contents, id)
          && rm.replica.Contents == old(rm.replica.Contents))
    && (!old(rm.primariaActiva) ==>
          && resp == Responder(kv, old(rm.replica.disponible), old(rm.replica.Contents), id, ts)
          && Servido(kv, old(rm.replica.disponible), old(rm.replica.Contents), rm.replica.Contents, id)
          && rm.primaria.Contents == old(rm.primaria.Contents))
    && (var disponible := if old(rm.primariaActiva) then old(rm.primaria.disponible) else old(rm.replica.disponible);
        var falla := Solicitud(kv).Some? && !disponible;
        && (falla ==> !rm.primariaActiva
                      && rm.disco.archivos == Sync(old(rm.disco.archivos), fallaDirectorio, fallaLocks, fallaCopia).1)
        && (!falla ==> rm.primariaActiva == old(rm.primariaActiva) && rm.disco.archivos == old(rm.disco.archivos)))
    && (if old(rm.primariaActiva) && old(rm.primaria.disponible) && Solicitud(kv).Some?
        then |rm.compuesto.pendientes| == |old(rm.compuesto.pendientes)| + 1
             && old(rm.compuesto.pendientes) <= rm.compuesto.pendientes
        else rm.compuesto.pendientes == old(rm.compuesto.pendientes))
  }

  /**
   * The rest of a turn once the fields `kv` are read and the clock reads `ts`: a request
   * missing a field is refused; otherwise the composite the manager hands out grants the
   * loan, and when the serving engine raises, the manager fails over to the replica.
   */
  method Solicitar(rm: ReplicaManager, kv: map<string, string>, id: string, ts: int,
                   fallaDirectorio: bool, fallaLocks: set<string>, fallaCopia: set<string>)
    returns (resp: string)
    requires rm.Valid()
    modifies rm`primariaActiva, rm.compuesto`primariaActiva, rm.compuesto`pendientes
    modifies rm.primaria.Repr(), rm.replica.Repr(), rm.disco
    ensures rm.Valid()
    ensures Turno(rm, kv, id, ts, resp, fallaDirectorio, fallaLocks, fallaCopia)
  {
    var usuarioId, libroCodigo, inicio, fin := Valor(kv, "usuarioId"), Valor(kv, "libroCodigo"), Valor(kv, "inicio"), Valor(kv, "fin");
    if usuarioId.None? || libroCodigo.None? || inicio.None? || fin.None? {
      assert Solicitud(kv).None?;
      resp := Error(MOTIVO_FORMATO, ts);
      return;
    }
    assert Solicitud(kv) == Some((usuarioId.value, libroCodigo.value, inicio.value, fin.value));
    resp := Procesar(rm, usuarioId.value, libroCodigo.value, inicio.value, fin.value, id, ts,
                     fallaDirectorio, fallaLocks, fallaCopia);
  }

  /**
   * One turn of the actor's loop on request `carga`, with clock `lamport`, where `id` is
   * the identifier a grant draws: the clock moves first, then the fields parseKeyValues
   * reads are served as Turno says.
   */
  method Atender(rm: ReplicaManager, lamport: int, carga: string, id: string,
                 fallaDirectorio: bool, fallaLocks: set<string>, fallaCopia: set<string>)
    returns (nuevoLamport: int, resp: string)
    requires rm.Valid() && LONG_MIN <= lamport <= LONG_MAX
    modifies rm`primariaActiva, rm.compuesto`primariaActiva, rm.compuesto`pendientes
    modifies rm.primaria.Repr(), rm.replica.Repr(), rm.disco
    ensures rm.Valid()
    ensures nuevoLamport == Lamport(lamport, ExtractTs(Some(carga)))
    ensures Turno(rm, Pares(Some(carga)), id, nuevoLamport, resp, fallaDirectorio, fallaLocks, fallaCopia)
  {
    nuevoLamport := Lamport(lamport, ExtractTs(Some(carga)));
    // Utils.ParseKeyValues is the loop proved to compute Pares.
    var kv := Pares(Some(carga));
    resp := Solicitar(rm, kv, id, nuevoLamport, fallaDirectorio, fallaLocks, fallaCopia);
  }
}
