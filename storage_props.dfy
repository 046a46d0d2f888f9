/**
 * What the storage engine's operations keep and change, stated on the functions that
 * specify them (Devolver, Renovar, Otorgar, HayDisponibilidad), and what replaying a
 * write on the replica does compared with the primary.
 */
module StorageProps {
  import opened Wrappers
  import opened Entities
  import opened Storage
  import opened Replication

  // ---------------------------------------------------------------- one operation

  /**
   * registrarDevolucion succeeds exactly for a filed loan; it then marks that loan
   * DEVUELTO, leaving its other fields and every other loan as they were, and gives one
   * copy back to the loan's book if that book is filed, every other book unchanged.
   */
  lemma DevolverEfecto(t: Tables, prestamoId: string)
    ensures Devolver(t, prestamoId).0 <==> prestamoId in t.prestamos
    ensures !Devolver(t, prestamoId).0 ==> Devolver(t, prestamoId).1 == t
    ensures Devolver(t, prestamoId).0 ==>
              var t1 := Devolver(t, prestamoId).1;
              var p := t.prestamos[prestamoId];
              && t1.prestamos == t.prestamos[prestamoId := p.(estado := Devuelto)]
              && t1.libros.Keys == t.libros.Keys
              && (forall c :: c in t.libros && c != p.libroCodigo ==> t1.libros[c] == t.libros[c])
              && (p.libroCodigo in t.libros ==>
                    t1.libros[p.libroCodigo] == t.libros[p.libroCodigo].(ejemplaresDisponibles := t.libros[p.libroCodigo].ejemplaresDisponibles + 1))
  {
  }

  /**
   * The engine does not check that a loan is still active: returning the same loan twice
   * succeeds both times and gives its book two copies back.
   */
  lemma DobleDevolucion(t: Tables, prestamoId: string)
    requires prestamoId in t.prestamos && t.prestamos[prestamoId].libroCodigo in t.libros
    ensures var c := t.prestamos[prestamoId].libroCodigo;
            var t1 := Devolver(t, prestamoId);
            var t2 := Devolver(t1.1, prestamoId);
            && t1.0 && t2.0
            && t2.1.libros[c].ejemplaresDisponibles == t.libros[c].ejemplaresDisponibles + 2
  {
    var c := t.prestamos[prestamoId].libroCodigo;
    var t1 := Devolver(t, prestamoId).1;
    assert t1.prestamos[prestamoId].libroCodigo == c;
    assert t1.libros[c].ejemplaresDisponibles == t.libros[c].ejemplaresDisponibles + 1;
  }

  /**
   * registrarRenovacion succeeds exactly for a filed loan renewed fewer than
   * MAX_RENOVACIONES times; it then adds one renewal and sets the end date, leaving the
   * loan's other fields, every other loan and every book as they were.
   */
  lemma RenovarEfecto(t: Tables, prestamoId: string, nuevaFecha: string)
    ensures Renovar(t, prestamoId, nuevaFecha).0 <==>
              prestamoId in t.prestamos && t.prestamos[prestamoId].renovaciones < MAX_RENOVACIONES
    ensures !Renovar(t, prestamoId, nuevaFecha).0 ==> Renovar(t, prestamoId, nuevaFecha).1 == t
    ensures Renovar(t, prestamoId, nuevaFecha).0 ==>
              var t1 := Renovar(t, prestamoId, nuevaFecha).1;
              var p := t.prestamos[prestamoId];
              && t1.libros == t.libros
              && t1.prestamos == t.prestamos[prestamoId := p.(renovaciones := p.renovaciones + 1, fechaFin := nuevaFecha)]
  {
  }

  /** A loan that starts with no renewals is renewed twice, and the third renewal fails and changes nothing. */
  lemma TerceraRenovacionFalla(t: Tables, prestamoId: string, f1: string, f2: string, f3: string)
    requires prestamoId in t.prestamos && t.prestamos[prestamoId].renovaciones == 0
    ensures var r1 := Renovar(t, prestamoId, f1);
            var r2 := Renovar(r1.1, prestamoId, f2);
            var r3 := Renovar(r2.1, prestamoId, f3);
            && r1.0 && r2.0 && !r3.0 && r3.1 == r2.1
            && r2.1.prestamos[prestamoId].renovaciones == MAX_RENOVACIONES
            && r2.1.prestamos[prestamoId].fechaFin == f2
  {
    var t1 := Renovar(t, prestamoId, f1).1;
    assert t1.prestamos[prestamoId].renovaciones == 1;
    var t2 := Renovar(t1, prestamoId, f2).1;
    assert t2.prestamos[prestamoId].renovaciones == 2;
  }

  /**
   * otorgarPrestamo grants exactly when validarDisponibilidad holds; a refusal changes
   * nothing; a grant files under the drawn id an ACTIVO, never renewed loan with the given
   * user, book and dates, takes exactly one copy from that book, and leaves every other
   * book and every loan filed under another id as it was.
   */
  lemma OtorgarEfecto(t: Tables, usuarioId: string, libroCodigo: string, inicio: string, fin: string, id: string)
    ensures Otorgar(t, usuarioId, libroCodigo, inicio, fin, id).0.Some? <==> HayDisponibilidad(t, libroCodigo)
    ensures !HayDisponibilidad(t, libroCodigo) ==> Otorgar(t, usuarioId, libroCodigo, inicio, fin, id).1 == t
    ensures HayDisponibilidad(t, libroCodigo) ==>
              var g := Otorgar(t, usuarioId, libroCodigo, inicio, fin, id);
              var l := t.libros[libroCodigo];
              && g.0 == Some(PrestamoRec(id, usuarioId, libroCodigo, inicio, fin, 0, Activo))
              && g.1.prestamos == t.prestamos[id := g.0.value]
              && g.1.libros == t.libros[libroCodigo := l.(ejemplaresDisponibles := l.ejemplaresDisponibles - 1)]
              && g.1.libros[libroCodigo].ejemplaresDisponibles >= 0
  {
  }

  // ---------------------------------------------------------------- runs of operations

  /** A write the engine serves. */
  datatype Operacion =
    | Devolucion(prestamoId: string)
    | Renovacion(prestamoId: string, nuevaFecha: string)
    | Otorgamiento(usuarioId: string, libroCodigo: string, inicio: string, fin: string, id: string)

  /** The tables after one operation on an available engine. */
  function Aplicar(t: Tables, op: Operacion): Tables
  {
    match op
    case Devolucion(id) => Devolver(t, id).1
    case Renovacion(id, fecha) => Renovar(t, id, fecha).1
    case Otorgamiento(u, l, i, f, id) => Otorgar(t, u, l, i, f, id).1
  }

  /** The tables after the operations, first to last. */
  function Ejecutar(t: Tables, ops: seq<Operacion>): Tables
    decreases |ops|
  {
    if ops == [] then t else Ejecutar(Aplicar(t, ops[0]), ops[1..])
  }

  /**
   * What the engine keeps whatever it serves: records filed under their own keys, no book
   * with a negative count, and no loan renewed more than MAX_RENOVACIONES times.
   */
  predicate Sana(t: Tables)
  {
    && Keyed(t)
    && (forall c :: c in t.libros ==> t.libros[c].ejemplaresDisponibles >= 0)
    && (forall i :: i in t.prestamos ==> 0 <= t.prestamos[i].renovaciones <= MAX_RENOVACIONES)
  }

  /** The ids the grants among `ops` draw. */
  function IdsOtorgados(ops: seq<Operacion>): set<string>
    decreases |ops|
  {
    if ops == [] then {}
    else (if ops[0].Otorgamiento? then {ops[0].id} else {}) + IdsOtorgados(ops[1..])
  }

  /** One operation keeps the tables sound. */
  lemma AplicarSana(t: Tables, op: Operacion)
    requires Sana(t)
    ensures Sana(Aplicar(t, op))
  {
    match op
    case Devolucion(id) =>
      DevolverEfecto(t, id);
    case Renovacion(id, fecha) =>
      RenovarEfecto(t, id, fecha);
    case Otorgamiento(u, l, i, f, id) =>
      OtorgarEfecto(t, u, l, i, f, id);
  }

  /** Any run of operations keeps the tables sound. */
  lemma {:induction false} EjecutarSana(t: Tables, ops: seq<Operacion>)
    requires Sana(t)
    ensures Sana(Ejecutar(t, ops))
    decreases |ops|
  {
    if ops != [] {
      AplicarSana(t, ops[0]);
      EjecutarSana(Aplicar(t, ops[0]), ops[1..]);
    }
  }

  /**
   * No operation forgets a record: the filed book codes never change, and the filed loan
   * ids only grow, by the ids the grants draw.
   */
  lemma {:induction false} EjecutarConservaClaves(t: Tables, ops: seq<Operacion>)
    ensures Ejecutar(t, ops).libros.Keys == t.libros.Keys
    ensures t.prestamos.Keys <= Ejecutar(t, ops).prestamos.Keys <= t.prestamos.Keys + IdsOtorgados(ops)
    decreases |ops|
  {
    if ops != [] {
      AplicarClaves(t, ops[0]);
      EjecutarConservaClaves(Aplicar(t, ops[0]), ops[1..]);
    }
  }

  /** One operation keeps the book codes and adds at most the id a grant draws to the loan ids. */
  lemma AplicarClaves(t: Tables, op: Operacion)
    ensures Aplicar(t, op).libros.Keys == t.libros.Keys
    ensures t.prestamos.Keys <= Aplicar(t, op).prestamos.Keys
    ensures Aplicar(t, op).prestamos.Keys <= t.prestamos.Keys + (if op.Otorgamiento? then {op.id} else {})
  {
    match op
    case Devolucion(id) =>
      DevolverEfecto(t, id);
    case Renovacion(id, fecha) =>
      RenovarEfecto(t, id, fecha);
    case Otorgamiento(u, l, i, f, id) =>
      OtorgarEfecto(t, u, l, i, f, id);
  }

  /**
   * The grants among `ops` that succeed on book `b`, counted along the run from `t`: a
   * grant succeeds exactly when validarDisponibilidad held for its book at that point.
   */
  function Concedidos(t: Tables, ops: seq<Operacion>, b: string): nat
    decreases |ops|
  {
    if ops == [] then 0
    else
      (if ops[0].Otorgamiento? && ops[0].libroCodigo == b && HayDisponibilidad(t, b) then 1 else 0)
      + Concedidos(Aplicar(t, ops[0]), ops[1..], b)
  }

  /**
   * The returns among `ops` that succeed on a loan of book `b`, counted along the run
   * from `t`: a return succeeds exactly when its loan is filed at that point.
   */
  function Devueltos(t: Tables, ops: seq<Operacion>, b: string): nat
    decreases |ops|
  {
    if ops == [] then 0
    else
      (if ops[0].Devolucion? && ops[0].prestamoId in t.prestamos
          && t.prestamos[ops[0].prestamoId].libroCodigo == b then 1 else 0)
      + Devueltos(Aplicar(t, ops[0]), ops[1..], b)
  }

  /** One operation moves a filed book's count by its successful return minus its successful grant. */
  lemma AplicarCuenta(t: Tables, op: Operacion, b: string)
    requires b in t.libros
    ensures b in Aplicar(t, op).libros
    ensures Aplicar(t, op).libros[b].ejemplaresDisponibles
              == t.libros[b].ejemplaresDisponibles
                 - Concedidos(t, [op], b) + Devueltos(t, [op], b)
  {
    assert [op][1..] == [];
    match op
    case Devolucion(id) =>
      DevolverEfecto(t, id);
    case Renovacion(id, fecha) =>
      RenovarEfecto(t, id, fecha);
    case Otorgamiento(u, l, i, f, id) =>
      OtorgarEfecto(t, u, l, i, f, id);
  }

  /**
   * Conservation of copies: after any run, a filed book holds its initial count, minus
   * the grants on it that succeeded, plus the returns of its loans that succeeded.
   */
  lemma {:induction false} EjecutarCuenta(t: Tables, ops: seq<Operacion>, b: string)
    requires b in t.libros
    ensures b in Ejecutar(t, ops).libros
    ensures Ejecutar(t, ops).libros[b].ejemplaresDisponibles
              == t.libros[b].ejemplaresDisponibles - Concedidos(t, ops, b) + Devueltos(t, ops, b)
    decreases |ops|
  {
    if ops != [] {
      var t1 := Aplicar(t, ops[0]);
      AplicarCuenta(t, ops[0], b);
      assert [ops[0]][1..] == [];
      EjecutarCuenta(t1, ops[1..], b);
    }
  }

  // ---------------------------------------------------------------- replicas

  /**
   * A replayed return or renewal does to an available replica exactly what it did to the
   * primary, so two engines with the same tables still agree after it.
   */
  lemma ReplayIgualaEscritura(t: Tables, replay: Replay, idNuevo: string)
    requires replay.ReplayDevolucion? || replay.ReplayRenovacion?
    ensures TrasReplay(replay, true, t, idNuevo) ==
              if replay.ReplayDevolucion? then Devolver(t, replay.prestamoId).1
              else Renovar(t, replay.prestamoId, replay.nuevaFecha).1
  {
  }

  /**
   * The replica draws its own id for a replayed grant: starting from the same tables, the
   * two engines file the same loan under different ids, and the primary's id is unknown
   * to the replica.
   */
  lemma OtorgarReplicaOtroId(t: Tables, usuarioId: string, libroCodigo: string, inicio: string, fin: string,
                             idPrimaria: string, idReplica: string)
    requires HayDisponibilidad(t, libroCodigo)
    requires idPrimaria != idReplica && idPrimaria !in t.prestamos
    ensures var p := Otorgar(t, usuarioId, libroCodigo, inicio, fin, idPrimaria);
            var r := Otorgar(t, usuarioId, libroCodigo, inicio, fin, idReplica);
            && p.1.libros == r.1.libros
            && idPrimaria in p.1.prestamos && idPrimaria !in r.1.prestamos
            && r.1.prestamos[idReplica] == p.1.prestamos[idPrimaria].(id := idReplica)
  {
  }
}
