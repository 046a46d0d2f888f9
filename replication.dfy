/**
 * GestorAlmacenamientoConReplica: a primary engine, a replica engine and the flag that
 * says which one serves. While the primary serves, each write goes to the primary, the
 * caller gets the primary's answer, and a replay of the write is queued on the single
 * replication lane; after failover every call goes to the replica alone.
 *
 * The replication executor is a FIFO sequence of pending replays, `pendientes`, and
 * `Replicar` is one step of the executor thread: it takes the oldest replay and runs it
 * against the replica, discarding whatever the replica answers or raises.
 */
module Replication {
  import opened Wrappers
  import opened Entities
  import opened Storage

  /** A write queued for the replica. A grant keeps the loan object the primary returned (or null). */
  datatype Replay =
    | ReplayDevolucion(prestamoId: string)
    | ReplayRenovacion(prestamoId: string, nuevaFecha: string)
    | ReplayOtorgar(prestamo: Prestamo?)

  /** What a write appends to the lane: its replay when the primary answered, nothing when it raised. */
  function Encolar<T>(r: Outcome<T>, replay: Replay): (q: seq<Replay>)
    ensures |q| <= 1
    ensures q == [replay] <==> r.Returned?
  {
    if r.Returned? then [replay] else []
  }

  /** The lane after one step of the executor: the oldest replay is gone. */
  function Resto(pendientes: seq<Replay>): (q: seq<Replay>)
    ensures pendientes != [] ==> pendientes == [pendientes[0]] + q
    ensures pendientes == [] ==> q == []
  {
    if pendientes == [] then [] else pendientes[1..]
  }

  /** The loan object a grant replay reads its fields from, if any. */
  function Leido(replay: Replay): set<Prestamo>
  {
    if replay.ReplayOtorgar? && replay.prestamo != null then {replay.prestamo} else {}
  }

  /**
   * The replica's tables after running `replay` on a replica with the given availability
   * and tables, where `idNuevo` is the identifier the replica draws for a replayed grant.
   * A grant replay reads the user, book and dates of the primary's loan object at the
   * time it runs, and a null loan does nothing.
   */
  ghost function TrasReplay(replay: Replay, disponible: bool, t: Tables, idNuevo: string): Tables
    reads Leido(replay)
  {
    match replay
    case ReplayDevolucion(id) => Servir(disponible, t, Devolver(t, id)).1
    case ReplayRenovacion(id, fecha) => Servir(disponible, t, Renovar(t, id, fecha)).1
    case ReplayOtorgar(p) =>
      if p == null then t
      else Servir(disponible, t, Otorgar(t, p.usuarioId, p.libroCodigo, p.fechaInicio, p.fechaFin, idNuevo)).1
  }

  /**
   * Two engines that share no object: different engines and repositories, and no book
   * or loan object filed in both.
   */
  ghost predicate Separados(a: GestorAlmacenamiento, b: GestorAlmacenamiento)
    reads a.libroRepo, a.prestamoRepo, b.libroRepo, b.prestamoRepo
  {
    && a != b && a.libroRepo != b.libroRepo && a.prestamoRepo != b.prestamoRepo
    && a.libroRepo.libros.Values !! b.libroRepo.libros.Values
    && a.prestamoRepo.prestamos.Values !! b.prestamoRepo.prestamos.Values
  }

  /** Filing `v` under `k` adds at most `v` to the values of a map. */
  lemma ValoresTrasAsignar<K, V>(m: map<K, V>, k: K, v: V)
    ensures m[k := v].Values <= m.Values + {v}
  {
    forall x | x in m[k := v].Values ensures x in m.Values + {v} {
      var j :| j in m[k := v] && m[k := v][j] == x;
      if j != k {
        assert m[j] == x;
      }
    }
  }

  /** The loan a grant answer holds, as a set: empty for IllegalStateException and for null. */
  function Nuevo(r: Outcome<Prestamo?>): set<Prestamo>
  {
    if r.Returned? && r.value != null then {r.value} else {}
  }

  /**
   * `g.otorgarPrestamo(...)` seen from outside the engine: it keeps the engine's books
   * and at most adds one freshly allocated loan to its loans.
   */
  method OtorgarEn(g: GestorAlmacenamiento, usuarioId: string, libroCodigo: string, fechaInicio: string,
                   fechaFin: string, id: string) returns (r: Outcome<Prestamo?>)
    requires g.Valid()
    modifies g.Repr()
    ensures g.Valid() && g.disponible == old(g.disponible)
    ensures g.libroRepo.libros == old(g.libroRepo.libros)
    ensures g.prestamoRepo.prestamos.Values <= old(g.prestamoRepo.prestamos.Values) + Nuevo(r)
    ensures fresh(Nuevo(r))
    ensures Otorgado(r, old(g.disponible), old(g.Contents), g.Contents, usuarioId, libroCodigo, fechaInicio, fechaFin, id)
  {
    ghost var prestamos := g.prestamoRepo.prestamos;
    r := g.OtorgarPrestamo(usuarioId, libroCodigo, fechaInicio, fechaFin, id);
    if r.Returned? && r.value != null {
      ValoresTrasAsignar(prestamos, id, r.value);
    }
  }

  class GestorAlmacenamientoConReplica {
    const primaria: GestorAlmacenamiento
    const replica: GestorAlmacenamiento
    var primariaActiva: bool
    /** The replication lane, oldest replay first. */
    var pendientes: seq<Replay>

    /** Both engines are consistent and share no object, so a write to one leaves the other alone. */
    ghost predicate Valid()
      reads this, primaria.Repr(), replica.Repr()
    {
      && primaria.Valid() && replica.Valid()
      && Separados(primaria, replica)
    }

    /** Which side serves and whether each engine is available: what no storage call changes. */
    ghost function Flags(): (bool, bool, bool)
      reads this, primaria, replica
    {
      (primariaActiva, primaria.disponible, replica.disponible)
    }

    /** The composite starts with the manager's flag and an empty lane. */
    constructor (primaria: GestorAlmacenamiento, replica: GestorAlmacenamiento, primariaActivaDelGestor: bool)
      ensures this.primaria == primaria && this.replica == replica
      ensures primariaActiva == primariaActivaDelGestor && pendientes == []
    {
      this.primaria := primaria;
      this.replica := replica;
      primariaActiva := primariaActivaDelGestor;
      pendientes := [];
    }

    /** setPrimariaActiva: only the flag changes. */
    method SetPrimariaActiva(act: bool)
      requires Valid()
      modifies this`primariaActiva
      ensures Valid() && primariaActiva == act
    {
      primariaActiva := act;
    }

    /** `replicator.submit(...)`: the lane grows by `q` at its end. */
    method Encolado(q: seq<Replay>, ghost leidos: set<Prestamo>)
      requires Valid()
      modifies this`pendientes
      ensures Valid() && Flags() == old(Flags()) && pendientes == old(pendientes) + q
      ensures primaria.Contents == old(primaria.Contents) && replica.Contents == old(replica.Contents)
      ensures unchanged(leidos)
    {
      pendientes := pendientes + q;
    }

    /** `primaria.registrarDevolucion(prestamoId)`. */
    method DevolucionEnPrimaria(prestamoId: string) returns (r: Outcome<bool>)
      requires Valid()
      modifies primaria.Repr()
      ensures Valid() && Flags() == old(Flags()) && pendientes == old(pendientes)
      ensures replica.Contents == old(replica.Contents)
      ensures (r, primaria.Contents) == Servir(old(primaria.disponible), old(primaria.Contents),
                                               Devolver(old(primaria.Contents), prestamoId))
    {
      assert primaria.Repr() !! replica.Repr();
      assert this !in primaria.Repr() && this !in replica.Repr();
      r := primaria.RegistrarDevolucion(prestamoId);
    }

    /** `replica.registrarDevolucion(prestamoId)`. */
    method DevolucionEnReplica(prestamoId: string) returns (r: Outcome<bool>)
      requires Valid()
      modifies replica.Repr()
      ensures Valid() && Flags() == old(Flags()) && pendientes == old(pendientes)
      ensures primaria.Contents == old(primaria.Contents)
      ensures (r, replica.Contents) == Servir(old(replica.disponible), old(replica.Contents),
                                              Devolver(old(replica.Contents), prestamoId))
    {
      assert primaria.Repr() !! replica.Repr();
      assert this !in primaria.Repr() && this !in replica.Repr();
      r := replica.RegistrarDevolucion(prestamoId);
    }

    /** registrarDevolucion: routed by the flag; a primary write that returns queues its replay. */
    method RegistrarDevolucion(prestamoId: string) returns (r: Outcome<bool>)
      requires Valid()
      modifies this`pendientes, primaria.Repr(), replica.Repr()
      ensures Valid() && Flags() == old(Flags())
      ensures !primariaActiva ==>
                && (r, replica.Contents) == Servir(old(replica.disponible), old(replica.Contents),
                                                   Devolver(old(replica.Contents), prestamoId))
                && primaria.Contents == old(primaria.Contents) && pendientes == old(pendientes)
      ensures primariaActiva ==>
                && (r, primaria.Contents) == Servir(old(primaria.disponible), old(primaria.Contents),
                                                    Devolver(old(primaria.Contents), prestamoId))
                && replica.Contents == old(replica.Contents)
                && pendientes == old(pendientes) + Encolar(r, ReplayDevolucion(prestamoId))
    {
      if !primariaActiva {
        r := DevolucionEnReplica(prestamoId);
      } else {
        r := DevolucionEnPrimaria(prestamoId);
        Encolado(Encolar(r, ReplayDevolucion(prestamoId)), {});
      }
    }

    /** `primaria.registrarRenovacion(prestamoId, nuevaFecha)`. */
    method RenovacionEnPrimaria(prestamoId: string, nuevaFecha: string) returns (r: Outcome<bool>)
      requires Valid()
      modifies primaria.Repr()
      ensures Valid() && Flags() == old(Flags()) && pendientes == old(pendientes)
      ensures replica.Contents == old(replica.Contents)
      ensures (r, primaria.Contents) == Servir(old(primaria.disponible), old(primaria.Contents),
                                               Renovar(old(primaria.Contents), prestamoId, nuevaFecha))
    {
      assert primaria.Repr() !! replica.Repr();
      assert this !in primaria.Repr() && this !in replica.Repr();
      r := primaria.RegistrarRenovacion(prestamoId, nuevaFecha);
    }

    /** `replica.registrarRenovacion(prestamoId, nuevaFecha)`. */
    method RenovacionEnReplica(prestamoId: string, nuevaFecha: string) returns (r: Outcome<bool>)
      requires Valid()
      modifies replica.Repr()
      ensures Valid() && Flags() == old(Flags()) && pendientes == old(pendientes)
      ensures primaria.Contents == old(primaria.Contents)
      ensures (r, replica.Contents) == Servir(old(replica.disponible), old(replica.Contents),
                                              Renovar(old(replica.Contents), prestamoId, nuevaFecha))
    {
      assert primaria.Repr() !! replica.Repr();
      assert this !in primaria.Repr() && this !in replica.Repr();
      r := replica.RegistrarRenovacion(prestamoId, nuevaFecha);
    }

    /** registrarRenovacion: routed and queued exactly as registrarDevolucion. */
    method RegistrarRenovacion(prestamoId: string, nuevaFecha: string) returns (r: Outcome<bool>)
      requires Valid()
      modifies this`pendientes, primaria.Repr(), replica.Repr()
      ensures Valid() && Flags() == old(Flags())
      ensures !primariaActiva ==>
                && (r, replica.Contents) == Servir(old(replica.disponible), old(replica.Contents),
                                                   Renovar(old(replica.Contents), prestamoId, nuevaFecha))
                && primaria.Contents == old(primaria.Contents) && pendientes == old(pendientes)
      ensures primariaActiva ==>
                && (r, primaria.Contents) == Servir(old(primaria.disponible), old(primaria.Contents),
                                                    Renovar(old(primaria.Contents), prestamoId, nuevaFecha))
                && replica.Contents == old(replica.Contents)
                && pendientes == old(pendientes) + Encolar(r, ReplayRenovacion(prestamoId, nuevaFecha))
    {
      if !primariaActiva {
        r := RenovacionEnReplica(prestamoId, nuevaFecha);
      } else {
        r := RenovacionEnPrimaria(prestamoId, nuevaFecha);
        Encolado(Encolar(r, ReplayRenovacion(prestamoId, nuevaFecha)), {});
      }
    }

    /** validarDisponibilidad: a read of whichever engine serves; nothing is queued. */
    method ValidarDisponibilidad(libroCodigo: string) returns (r: Outcome<bool>)
      requires Valid()
      ensures var g := if primariaActiva then primaria else replica;
              r == (if g.disponible then Returned(HayDisponibilidad(g.Contents, libroCodigo)) else IllegalState)
    {
      if !primariaActiva {
        r := replica.ValidarDisponibilidad(libroCodigo);
      } else {
        r := primaria.ValidarDisponibilidad(libroCodigo);
      }
    }

    /** `primaria.otorgarPrestamo(...)`, `id` being the UUID the primary draws. */
    method OtorgamientoEnPrimaria(usuarioId: string, libroCodigo: string, fechaInicio: string, fechaFin: string,
                                  id: string) returns (r: Outcome<Prestamo?>)
      requires Valid()
      modifies primaria.Repr()
      ensures Valid() && Flags() == old(Flags()) && pendientes == old(pendientes)
      ensures replica.Contents == old(replica.Contents)
      ensures Otorgado(r, old(primaria.disponible), old(primaria.Contents), primaria.Contents,
                       usuarioId, libroCodigo, fechaInicio, fechaFin, id)
    {
      assert primaria.Repr() !! replica.Repr();
      assert this !in primaria.Repr() && this !in replica.Repr();
      ghost var otros := replica.prestamoRepo.prestamos.Values;
      assert forall o :: o in otros ==> allocated(o);
      r := OtorgarEn(primaria, usuarioId, libroCodigo, fechaInicio, fechaFin, id);
      assert Nuevo(r) !! otros;
    }

    /** `replica.otorgarPrestamo(...)`, `id` being the UUID the replica draws. */
    method OtorgamientoEnReplica(usuarioId: string, libroCodigo: string, fechaInicio: string, fechaFin: string,
                                 id: string) returns (r: Outcome<Prestamo?>)
      requires Valid()
      modifies replica.Repr()
      ensures Valid() && Flags() == old(Flags()) && pendientes == old(pendientes)
      ensures primaria.Contents == old(primaria.Contents)
      ensures Otorgado(r, old(replica.disponible), old(replica.Contents), replica.Contents,
                       usuarioId, libroCodigo, fechaInicio, fechaFin, id)
    {
      assert primaria.Repr() !! replica.Repr();
      assert this !in primaria.Repr() && this !in replica.Repr();
      ghost var otros := primaria.prestamoRepo.prestamos.Values;
      assert forall o :: o in otros ==> allocated(o);
      r := OtorgarEn(replica, usuarioId, libroCodigo, fechaInicio, fechaFin, id);
      assert Nuevo(r) !! otros;
    }

    /**
     * otorgarPrestamo: routed by the flag. On the primary path the loan object the primary
     * returned (null included) is queued, and the replica will draw a UUID of its own for it.
     */
    method OtorgarPrestamo(usuarioId: string, libroCodigo: string, fechaInicio: string, fechaFin: string,
                           id: string) returns (r: Outcome<Prestamo?>)
      requires Valid()
      modifies this`pendientes, primaria.Repr(), replica.Repr()
      ensures Valid() && Flags() == old(Flags())
      ensures !primariaActiva ==>
                && Otorgado(r, old(replica.disponible), old(replica.Contents), replica.Contents,
                            usuarioId, libroCodigo, fechaInicio, fechaFin, id)
                && primaria.Contents == old(primaria.Contents) && pendientes == old(pendientes)
      ensures primariaActiva ==>
                && Otorgado(r, old(primaria.disponible), old(primaria.Contents), primaria.Contents,
                            usuarioId, libroCodigo, fechaInicio, fechaFin, id)
                && replica.Contents == old(replica.Contents)
                && pendientes == old(pendientes) + Encolar(r, ReplayOtorgar(if r.Returned? then r.value else null))
    {
      if !primariaActiva {
        r := OtorgamientoEnReplica(usuarioId, libroCodigo, fechaInicio, fechaFin, id);
      } else {
        r := OtorgamientoEnPrimaria(usuarioId, libroCodigo, fechaInicio, fechaFin, id);
        Encolado(Encolar(r, ReplayOtorgar(if r.Returned? then r.value else null)), Nuevo(r));
      }
    }

    /** The executor takes the oldest replay off the lane. */
    method Desencolado() returns (replay: Replay)
      requires Valid() && pendientes != []
      modifies this`pendientes
      ensures Valid() && Flags() == old(Flags())
      ensures replay == old(pendientes)[0] && pendientes == Resto(old(pendientes))
    {
      replay := pendientes[0];
      pendientes := pendientes[1..];
    }

    /**
     * One step of the replication executor: the oldest replay runs against the replica,
     * whose answer or IllegalStateException is dropped; `idNuevo` is the UUID the replica
     * draws if the replay is a grant. The primary is not touched.
     */
    method Replicar(idNuevo: string)
      requires Valid()
      modifies this`pendientes, replica.Repr()
      ensures Valid() && Flags() == old(Flags())
      ensures primaria.Contents == old(primaria.Contents)
      ensures pendientes == Resto(old(pendientes))
      ensures old(pendientes) == [] ==> replica.Contents == old(replica.Contents)
      ensures old(pendientes) != [] ==>
                replica.Contents == old(TrasReplay(pendientes[0], replica.disponible, replica.Contents, idNuevo))
    {
      if pendientes == [] {
        return;
      }
      var replay := Desencolado();
      match replay {
        case ReplayDevolucion(id) =>
          var _ := DevolucionEnReplica(id);
        case ReplayRenovacion(id, fecha) =>
          var _ := RenovacionEnReplica(id, fecha);
        case ReplayOtorgar(p) =>
          if p != null {
            var _ := OtorgamientoEnReplica(p.usuarioId, p.libroCodigo, p.fechaInicio, p.fechaFin, idNuevo);
          }
      }
    }
  }
}
