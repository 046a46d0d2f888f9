/**
 * GestorAlmacenamiento: the single-node storage engine over a book repository
 * and a loan repository. Every operation first checks the availability flag and
 * raises IllegalStateException when it is off; otherwise it reads and updates
 * the Libro and Prestamo objects in place and saves them back.
 *
 * The effect of each operation on an available engine is stated by a function
 * on `Tables`, the values of all stored records; the class methods are proved
 * to have exactly that effect, and StorageProps proves what those functions keep.
 */
module Storage {
  import opened Wrappers
  import opened Entities
  import opened Repositories

  /** The contents of both repositories: the records filed under each code and id. */
  datatype Tables = Tables(libros: map<string, LibroRec>, prestamos: map<string, PrestamoRec>)

  /** Number of copies the book filed under `codigo` gains with the return of a loan on it. */
  const RETURN_GAIN: int := 1

  /** The cap on renewals: a loan with this many renewals is not renewed again. */
  const MAX_RENOVACIONES: int := 2

  /** The tables with `q` filed under loan id `id`. */
  function ConPrestamo(t: Tables, id: string, q: PrestamoRec): Tables
  {
    t.(prestamos := t.prestamos[id := q])
  }

  /** The tables with `l` filed under book code `codigo`. */
  function ConLibro(t: Tables, codigo: string, l: LibroRec): Tables
  {
    t.(libros := t.libros[codigo := l])
  }

  /** A loan in state `estado`. */
  function ConEstado(p: PrestamoRec, estado: PrestamoEstado): PrestamoRec
  {
    p.(estado := estado)
  }

  /** A book with `n` available copies. */
  function ConEjemplares(l: LibroRec, n: int): LibroRec
  {
    l.(ejemplaresDisponibles := n)
  }

  /** A loan renewed `n` times. */
  function ConRenovaciones(p: PrestamoRec, n: int): PrestamoRec
  {
    p.(renovaciones := n)
  }

  /** A loan ending on `fecha`. */
  function ConFechaFin(p: PrestamoRec, fecha: string): PrestamoRec
  {
    p.(fechaFin := fecha)
  }

  /** A loan after one more renewal, ending on `nuevaFecha`. */
  function Renovado(p: PrestamoRec, nuevaFecha: string): PrestamoRec
  {
    ConFechaFin(ConRenovaciones(p, p.renovaciones + 1), nuevaFecha)
  }

  /** The tables after the book filed under `codigo`, if there is one, gains a returned copy. */
  function Reponer(t: Tables, codigo: string): Tables
  {
    if codigo in t.libros then
      var l := t.libros[codigo];
      ConLibro(t, codigo, ConEjemplares(l, l.ejemplaresDisponibles + RETURN_GAIN))
    else t
  }

  /**
   * registrarDevolucion on an available engine: an unknown id fails and changes nothing;
   * otherwise the loan becomes DEVUELTO (whatever its state was) and its book, if it is
   * still filed, gains one copy.
   */
  function Devolver(t: Tables, prestamoId: string): (bool, Tables)
  {
    if prestamoId !in t.prestamos then (false, t)
    else
      var p := t.prestamos[prestamoId];
      (true, Reponer(ConPrestamo(t, prestamoId, ConEstado(p, Devuelto)), p.libroCodigo))
  }

  /**
   * registrarRenovacion on an available engine: an unknown id, or a loan already renewed
   * MAX_RENOVACIONES times, fails and changes nothing; otherwise the loan's renewals go up
   * by one and its end date becomes `nuevaFecha`.
   */
  function Renovar(t: Tables, prestamoId: string, nuevaFecha: string): (bool, Tables)
  {
    if prestamoId !in t.prestamos || t.prestamos[prestamoId].renovaciones >= MAX_RENOVACIONES then (false, t)
    else (true, ConPrestamo(t, prestamoId, Renovado(t.prestamos[prestamoId], nuevaFecha)))
  }

  /** The tables after the book filed under `codigo` loses a copy to a new loan. */
  function Retirar(t: Tables, codigo: string): Tables
    requires codigo in t.libros
  {
    var l := t.libros[codigo];
    ConLibro(t, codigo, ConEjemplares(l, l.ejemplaresDisponibles - 1))
  }

  /** validarDisponibilidad on an available engine. */
  predicate HayDisponibilidad(t: Tables, libroCodigo: string)
  {
    libroCodigo in t.libros && t.libros[libroCodigo].ejemplaresDisponibles > 0
  }

  /** The loan otorgarPrestamo creates: ACTIVO, never renewed. */
  function NuevoPrestamo(id: string, usuarioId: string, libroCodigo: string, fechaInicio: string,
                         fechaFin: string): PrestamoRec
  {
    PrestamoRec(id, usuarioId, libroCodigo, fechaInicio, fechaFin, 0, Activo)
  }

  /**
   * otorgarPrestamo on an available engine, where `id` is the identifier the engine draws
   * for the new loan: no copy available fails and changes nothing; otherwise the book
   * loses one copy and an ACTIVO loan with no renewals is filed under `id`.
   */
  function Otorgar(t: Tables, usuarioId: string, libroCodigo: string, fechaInicio: string,
                   fechaFin: string, id: string): (Option<PrestamoRec>, Tables)
  {
    if !HayDisponibilidad(t, libroCodigo) then (None, t)
    else
      var p := NuevoPrestamo(id, usuarioId, libroCodigo, fechaInicio, fechaFin);
      (Some(p), ConPrestamo(Retirar(t, libroCodigo), id, p))
  }

  /**
   * The outcome of an engine operation with result type T: IllegalStateException, changing
   * nothing, when the engine is unavailable; otherwise the operation's own result and effect.
   */
  function Servir<T>(disponible: bool, t: Tables, efecto: (T, Tables)): (Outcome<T>, Tables)
  {
    if disponible then (Returned(efecto.0), efecto.1) else (IllegalState, t)
  }

  /**
   * What otorgarPrestamo promises about its answer `r`, given the availability and tables
   * before the call (`t0`) and the tables after it (`t1`): IllegalStateException, changing
   * nothing, when unavailable; otherwise the effect of Otorgar, with null exactly when
   * Otorgar grants nothing and otherwise a loan object holding the granted loan.
   */
  ghost predicate Otorgado(r: Outcome<Prestamo?>, disponible: bool, t0: Tables, t1: Tables, usuarioId: string,
                           libroCodigo: string, fechaInicio: string, fechaFin: string, id: string)
    reads if r.Returned? && r.value != null then {r.value} else {}
  {
    var g := Otorgar(t0, usuarioId, libroCodigo, fechaInicio, fechaFin, id);
    if !disponible then r == IllegalState && t1 == t0
    else r.Returned? && t1 == g.1 && (if r.value == null then g.0 == None else g.0 == Some(r.value.View()))
  }

  /** Filing a second loan value under the same id replaces the first. */
  lemma ConPrestamoTwice(t: Tables, id: string, a: PrestamoRec, b: PrestamoRec)
    ensures ConPrestamo(ConPrestamo(t, id, a), id, b) == ConPrestamo(t, id, b)
  {
    assert t.prestamos[id := a][id := b] == t.prestamos[id := b];
  }

  /** `v` holds, key by key, the values of the book objects `m` holds. */
  ghost predicate LibrosMirror(m: map<string, Libro>, v: map<string, LibroRec>)
    reads m.Values
  {
    m.Keys == v.Keys && forall c :: c in m ==> m[c].View() == v[c]
  }

  /** `v` holds, key by key, the values of the loan objects `m` holds. */
  ghost predicate PrestamosMirror(m: map<string, Prestamo>, v: map<string, PrestamoRec>)
    reads m.Values
  {
    m.Keys == v.Keys && forall i :: i in m ==> m[i].View() == v[i]
  }

  /** Every record is filed under its own code or id, as the repositories' `save` files it. */
  predicate Keyed(t: Tables)
  {
    && (forall c :: c in t.libros ==> t.libros[c].codigo == c)
    && (forall i :: i in t.prestamos ==> t.prestamos[i].id == i)
  }

  /** Filing a loan under its own id keeps the tables keyed. */
  lemma KeyedConPrestamo(t: Tables, id: string, q: PrestamoRec)
    requires Keyed(t) && q.id == id
    ensures Keyed(ConPrestamo(t, id, q))
  {
  }

  /** Filing a book under its own code keeps the tables keyed. */
  lemma KeyedConLibro(t: Tables, codigo: string, l: LibroRec)
    requires Keyed(t) && l.codigo == codigo
    ensures Keyed(ConLibro(t, codigo, l))
  {
  }

  class GestorAlmacenamiento {
    const libroRepo: InMemoryLibroRepository
    const prestamoRepo: InMemoryPrestamoRepository
    var disponible: bool
    /** The values of the records both repositories hold; Valid() ties it to the objects. */
    ghost var Contents: Tables

    /** The engine, its two repositories and every record object they hold. */
    ghost function Repr(): set<object>
      reads libroRepo`libros, prestamoRepo`prestamos
    {
      {this, libroRepo, prestamoRepo} + libroRepo.libros.Values + prestamoRepo.prestamos.Values
    }

    ghost predicate Valid()
      reads this, libroRepo, prestamoRepo, libroRepo.libros.Values, prestamoRepo.prestamos.Values
    {
      && Keyed(Contents)
      && LibrosMirror(libroRepo.libros, Contents.libros)
      && PrestamosMirror(prestamoRepo.prestamos, Contents.prestamos)
    }

    /** A new engine is available and works on the repositories it is given, whatever they hold. */
    constructor (libroRepo: InMemoryLibroRepository, prestamoRepo: InMemoryPrestamoRepository)
      requires libroRepo.Valid() && prestamoRepo.Valid()
      ensures Valid() && disponible
      ensures this.libroRepo == libroRepo && this.prestamoRepo == prestamoRepo
    {
      this.libroRepo := libroRepo;
      this.prestamoRepo := prestamoRepo;
      disponible := true;
      Contents := Tables(map c | c in libroRepo.libros :: libroRepo.libros[c].View(),
                         map i | i in prestamoRepo.prestamos :: prestamoRepo.prestamos[i].View());
    }

    /** setDisponible: only the flag changes. */
    method SetDisponible(disponible: bool)
      modifies this`disponible
      ensures this.disponible == disponible
    {
      this.disponible := disponible;
    }

    // Each step below is one statement of the Java operation: a setter on a stored
    // record, or a save of a record into its repository. Each states its effect on
    // Contents, so the operations themselves are proved step by step.

    /** `p.setEstado(estado)` on the loan filed under `id`. */
    method CambiarEstado(ghost id: string, p: Prestamo, estado: PrestamoEstado)
      requires Valid() && id in prestamoRepo.prestamos && prestamoRepo.prestamos[id] == p
      modifies p, this`Contents
      ensures Valid()
      ensures Contents == ConPrestamo(old(Contents), id, ConEstado(old(Contents).prestamos[id], estado))
    {
      ghost var t0 := Contents;
      p.SetEstado(estado);
      Contents := ConPrestamo(t0, id, p.View());
      KeyedConPrestamo(t0, id, p.View());
      ghost var m := prestamoRepo.prestamos;
      forall i | i in m ensures m[i].View() == Contents.prestamos[i] {
        if i != id {
          assert t0.prestamos[i].id == i;
        }
      }
    }

    /** `p.setRenovaciones(n)` on the loan filed under `id`. */
    method CambiarRenovaciones(ghost id: string, p: Prestamo, n: int)
      requires Valid() && id in prestamoRepo.prestamos && prestamoRepo.prestamos[id] == p
      modifies p, this`Contents
      ensures Valid()
      ensures Contents == ConPrestamo(old(Contents), id, ConRenovaciones(old(Contents).prestamos[id], n))
    {
      ghost var t0 := Contents;
      p.SetRenovaciones(n);
      Contents := ConPrestamo(t0, id, p.View());
      KeyedConPrestamo(t0, id, p.View());
      ghost var m := prestamoRepo.prestamos;
      forall i | i in m ensures m[i].View() == Contents.prestamos[i] {
        if i != id {
          assert t0.prestamos[i].id == i;
        }
      }
    }

    /** `p.setFechaFin(fecha)` on the loan filed under `id`. */
    method CambiarFechaFin(ghost id: string, p: Prestamo, fecha: string)
      requires Valid() && id in prestamoRepo.prestamos && prestamoRepo.prestamos[id] == p
      modifies p, this`Contents
      ensures Valid()
      ensures Contents == ConPrestamo(old(Contents), id, ConFechaFin(old(Contents).prestamos[id], fecha))
    {
      ghost var t0 := Contents;
      p.SetFechaFin(fecha);
      Contents := ConPrestamo(t0, id, p.View());
      KeyedConPrestamo(t0, id, p.View());
      ghost var m := prestamoRepo.prestamos;
      forall i | i in m ensures m[i].View() == Contents.prestamos[i] {
        if i != id {
          assert t0.prestamos[i].id == i;
        }
      }
    }

    /** `l.setEjemplaresDisponibles(n)` on the book filed under `codigo`. */
    method CambiarEjemplares(ghost codigo: string, l: Libro, n: int)
      requires Valid() && codigo in libroRepo.libros && libroRepo.libros[codigo] == l
      modifies l, this`Contents
      ensures Valid()
      ensures Contents == ConLibro(old(Contents), codigo, ConEjemplares(old(Contents).libros[codigo], n))
    {
      ghost var t0 := Contents;
      l.SetEjemplaresDisponibles(n);
      Contents := ConLibro(t0, codigo, l.View());
      KeyedConLibro(t0, codigo, l.View());
      ghost var m := libroRepo.libros;
      forall c | c in m ensures m[c].View() == Contents.libros[c] {
        if c != codigo {
          assert t0.libros[c].codigo == c;
        }
      }
    }

    /** `prestamoRepo.save(p)` for a loan already filed under `id`: nothing changes. */
    method ResguardarPrestamo(ghost id: string, p: Prestamo)
      requires Valid() && id in prestamoRepo.prestamos && prestamoRepo.prestamos[id] == p
      modifies prestamoRepo
      ensures Valid() && prestamoRepo.prestamos == old(prestamoRepo.prestamos)
    {
      prestamoRepo.Save(p);
      assert prestamoRepo.prestamos == old(prestamoRepo.prestamos);
    }

    /** `libroRepo.save(l)` for a book already filed under `codigo`: nothing changes. */
    method ResguardarLibro(ghost codigo: string, l: Libro)
      requires Valid() && codigo in libroRepo.libros && libroRepo.libros[codigo] == l
      modifies libroRepo
      ensures Valid() && libroRepo.libros == old(libroRepo.libros)
    {
      libroRepo.Save(l);
      assert libroRepo.libros == old(libroRepo.libros);
    }

    /** `prestamoRepo.save(p)` for a loan object the engine has just created. */
    method ArchivarNuevo(p: Prestamo)
      requires Valid() && p !in prestamoRepo.prestamos.Values
      modifies this`Contents, prestamoRepo
      ensures Valid() && disponible == old(disponible) && libroRepo.libros == old(libroRepo.libros)
      ensures prestamoRepo.prestamos == old(prestamoRepo.prestamos)[p.id := p]
      ensures Contents == ConPrestamo(old(Contents), p.id, p.View())
    {
      ghost var t0 := Contents;
      prestamoRepo.Save(p);
      Contents := ConPrestamo(t0, p.id, p.View());
      KeyedConPrestamo(t0, p.id, p.View());
      ghost var m := prestamoRepo.prestamos;
      forall i | i in m ensures m[i].View() == Contents.prestamos[i] {
      }
    }

    /** `p.setEstado(estado)` then `prestamoRepo.save(p)`, for the loan filed under `id`. */
    method GuardarEstado(ghost id: string, p: Prestamo, estado: PrestamoEstado)
      requires Valid() && id in prestamoRepo.prestamos && prestamoRepo.prestamos[id] == p
      modifies p, prestamoRepo, this`Contents
      ensures Valid() && disponible == old(disponible)
      ensures libroRepo.libros == old(libroRepo.libros) && prestamoRepo.prestamos == old(prestamoRepo.prestamos)
      ensures Contents == ConPrestamo(old(Contents), id, ConEstado(old(Contents).prestamos[id], estado))
    {
      CambiarEstado(id, p, estado);
      ResguardarPrestamo(id, p);
    }

    /** `p.setRenovaciones(p.getRenovaciones() + 1)` then `p.setFechaFin(nuevaFecha)`, for the loan filed under `id`. */
    method CambiarRenovacion(ghost id: string, p: Prestamo, nuevaFecha: string)
      requires Valid() && id in prestamoRepo.prestamos && prestamoRepo.prestamos[id] == p
      modifies p, this`Contents
      ensures Valid()
      ensures Contents == ConPrestamo(old(Contents), id, Renovado(old(Contents).prestamos[id], nuevaFecha))
    {
      ghost var t0 := Contents;
      ghost var q := t0.prestamos[id];
      CambiarRenovaciones(id, p, p.renovaciones + 1);
      ghost var q1 := ConRenovaciones(q, q.renovaciones + 1);
      assert Contents == ConPrestamo(t0, id, q1);
      CambiarFechaFin(id, p, nuevaFecha);
      assert Contents == ConPrestamo(ConPrestamo(t0, id, q1), id, ConFechaFin(q1, nuevaFecha));
      ConPrestamoTwice(t0, id, q1, ConFechaFin(q1, nuevaFecha));
      assert Renovado(q, nuevaFecha) == ConFechaFin(q1, nuevaFecha);
    }

    /**
     * `p.setRenovaciones(p.getRenovaciones() + 1)`, `p.setFechaFin(nuevaFecha)`, then
     * `prestamoRepo.save(p)`, for the loan filed under `id`.
     */
    method GuardarRenovacion(ghost id: string, p: Prestamo, nuevaFecha: string)
      requires Valid() && id in prestamoRepo.prestamos && prestamoRepo.prestamos[id] == p
      modifies p, prestamoRepo, this`Contents
      ensures Valid() && disponible == old(disponible)
      ensures libroRepo.libros == old(libroRepo.libros) && prestamoRepo.prestamos == old(prestamoRepo.prestamos)
      ensures Contents == ConPrestamo(old(Contents), id, Renovado(old(Contents).prestamos[id], nuevaFecha))
    {
      CambiarRenovacion(id, p, nuevaFecha);
      ResguardarPrestamo(id, p);
    }

    /** `l.setEjemplaresDisponibles(n)` then `libroRepo.save(l)`, for the book filed under `codigo`. */
    method GuardarEjemplares(ghost codigo: string, l: Libro, n: int)
      requires Valid() && codigo in libroRepo.libros && libroRepo.libros[codigo] == l
      modifies l, libroRepo, this`Contents
      ensures Valid() && disponible == old(disponible)
      ensures libroRepo.libros == old(libroRepo.libros) && prestamoRepo.prestamos == old(prestamoRepo.prestamos)
      ensures Contents == ConLibro(old(Contents), codigo, ConEjemplares(old(Contents).libros[codigo], n))
    {
      CambiarEjemplares(codigo, l, n);
      ResguardarLibro(codigo, l);
    }

    /** The book lookup and update of registrarDevolucion: the book filed under `codigo`, if any, gains a copy. */
    method ReponerLibro(codigo: string)
      requires Valid()
      modifies libroRepo, libroRepo.libros.Values, this`Contents
      ensures Valid() && disponible == old(disponible)
      ensures libroRepo.libros == old(libroRepo.libros) && prestamoRepo.prestamos == old(prestamoRepo.prestamos)
      ensures Contents == Reponer(old(Contents), codigo)
    {
      var l := libroRepo.FindByCodigo(codigo);
      if l != null {
        GuardarEjemplares(codigo, l, l.ejemplaresDisponibles + RETURN_GAIN);
      }
    }

    /** registrarDevolucion once the engine is known to be available: the effect of Devolver. */
    method Devolucion(prestamoId: string) returns (ok: bool)
      requires Valid()
      modifies Repr()
      ensures Valid() && disponible == old(disponible)
      ensures libroRepo.libros == old(libroRepo.libros) && prestamoRepo.prestamos == old(prestamoRepo.prestamos)
      ensures (ok, Contents) == Devolver(old(Contents), prestamoId)
    {
      var p := prestamoRepo.FindById(prestamoId);
      if p == null {
        return false;
      }
      ghost var t0 := Contents;
      ghost var q := t0.prestamos[prestamoId];
      assert p.View() == q;
      GuardarEstado(prestamoId, p, Devuelto);
      ghost var t1 := Contents;
      assert p.libroCodigo == q.libroCodigo;
      ReponerLibro(p.libroCodigo);
      assert Contents == Reponer(ConPrestamo(t0, prestamoId, ConEstado(q, Devuelto)), q.libroCodigo);
      ok := true;
    }

    /** registrarDevolucion: raises when unavailable, otherwise has the effect of Devolver. */
    method RegistrarDevolucion(prestamoId: string) returns (r: Outcome<bool>)
      requires Valid()
      modifies Repr()
      ensures Valid() && disponible == old(disponible)
      ensures libroRepo.libros == old(libroRepo.libros) && prestamoRepo.prestamos == old(prestamoRepo.prestamos)
      ensures !old(disponible) ==> r == IllegalState && Contents == old(Contents)
      ensures old(disponible) ==> r == Returned(Devolver(old(Contents), prestamoId).0)
                                  && Contents == Devolver(old(Contents), prestamoId).1
    {
      if !disponible {
        r := IllegalState;
        return;
      }
      var ok := Devolucion(prestamoId);
      r := Returned(ok);
    }

    /** registrarRenovacion once the engine is known to be available: the effect of Renovar. */
    method Renovacion(prestamoId: string, nuevaFecha: string) returns (ok: bool)
      requires Valid()
      modifies Repr()
      ensures Valid() && disponible == old(disponible)
      ensures libroRepo.libros == old(libroRepo.libros) && prestamoRepo.prestamos == old(prestamoRepo.prestamos)
      ensures (ok, Contents) == Renovar(old(Contents), prestamoId, nuevaFecha)
    {
      var p := prestamoRepo.FindById(prestamoId);
      if p == null {
        return false;
      }
      if p.renovaciones >= MAX_RENOVACIONES {
        return false;
      }
      GuardarRenovacion(prestamoId, p, nuevaFecha);
      ok := true;
    }

    /** registrarRenovacion: raises when unavailable, otherwise has the effect of Renovar. */
    method RegistrarRenovacion(prestamoId: string, nuevaFecha: string) returns (r: Outcome<bool>)
      requires Valid()
      modifies Repr()
      ensures Valid() && disponible == old(disponible)
      ensures libroRepo.libros == old(libroRepo.libros) && prestamoRepo.prestamos == old(prestamoRepo.prestamos)
      ensures !old(disponible) ==> r == IllegalState && Contents == old(Contents)
      ensures old(disponible) ==> r == Returned(Renovar(old(Contents), prestamoId, nuevaFecha).0)
                                  && Contents == Renovar(old(Contents), prestamoId, nuevaFecha).1
    {
      if !disponible {
        r := IllegalState;
        return;
      }
      var ok := Renovacion(prestamoId, nuevaFecha);
      r := Returned(ok);
    }

    /** validarDisponibilidad: raises when unavailable, otherwise answers HayDisponibilidad; it changes nothing. */
    method ValidarDisponibilidad(libroCodigo: string) returns (r: Outcome<bool>)
      requires Valid()
      ensures r == (if disponible then Returned(HayDisponibilidad(Contents, libroCodigo)) else IllegalState)
    {
      if !disponible {
        r := IllegalState;
        return;
      }
      var l := libroRepo.FindByCodigo(libroCodigo);
      r := Returned(l != null && l.ejemplaresDisponibles > 0);
    }

    /** The book update of otorgarPrestamo: the book filed under `codigo`, known to be there, loses a copy. */
    method RetirarEjemplar(codigo: string)
      requires Valid() && codigo in Contents.libros
      modifies libroRepo, libroRepo.libros.Values, this`Contents
      ensures Valid() && disponible == old(disponible)
      ensures libroRepo.libros == old(libroRepo.libros) && prestamoRepo.prestamos == old(prestamoRepo.prestamos)
      ensures Contents == Retirar(old(Contents), codigo)
    {
      var l := libroRepo.FindByCodigo(codigo);
      GuardarEjemplares(codigo, l, l.ejemplaresDisponibles - 1);
    }

    /** The loan creation of otorgarPrestamo: a new loan object filed under `id` and returned. */
    method CrearPrestamo(usuarioId: string, libroCodigo: string, fechaInicio: string, fechaFin: string,
                         id: string) returns (p: Prestamo)
      requires Valid()
      modifies prestamoRepo, this`Contents
      ensures Valid() && fresh(p) && disponible == old(disponible)
      ensures libroRepo.libros == old(libroRepo.libros) && prestamoRepo.prestamos == old(prestamoRepo.prestamos)[id := p]
      ensures p.View() == NuevoPrestamo(id, usuarioId, libroCodigo, fechaInicio, fechaFin)
      ensures Contents == ConPrestamo(old(Contents), id, p.View())
    {
      p := new Prestamo(id, usuarioId, libroCodigo, fechaInicio, fechaFin, 0, Activo);
      ArchivarNuevo(p);
    }

    /**
     * The grant of otorgarPrestamo once a copy is known to be available: one copy less,
     * and a new ACTIVO loan object, never renewed, filed under `id` and returned.
     */
    method Conceder(usuarioId: string, libroCodigo: string, fechaInicio: string, fechaFin: string,
                    id: string) returns (p: Prestamo)
      requires Valid() && HayDisponibilidad(Contents, libroCodigo)
      modifies Repr()
      ensures Valid() && fresh(p) && disponible == old(disponible)
      ensures libroRepo.libros == old(libroRepo.libros) && prestamoRepo.prestamos == old(prestamoRepo.prestamos)[id := p]
      ensures Otorgar(old(Contents), usuarioId, libroCodigo, fechaInicio, fechaFin, id) == (Some(p.View()), Contents)
    {
      RetirarEjemplar(libroCodigo);
      p := CrearPrestamo(usuarioId, libroCodigo, fechaInicio, fechaFin, id);
    }

    /**
     * otorgarPrestamo, where `id` is the value UUID.randomUUID().toString() yields:
     * raises when unavailable, otherwise has the effect of Otorgar and returns the new
     * Prestamo object, the very one now filed under `id`, or null.
     */
    method OtorgarPrestamo(usuarioId: string, libroCodigo: string, fechaInicio: string, fechaFin: string,
                           id: string) returns (r: Outcome<Prestamo?>)
      requires Valid()
      modifies Repr()
      ensures Valid() && disponible == old(disponible) && libroRepo.libros == old(libroRepo.libros)
      ensures !old(disponible) ==> r == IllegalState && Contents == old(Contents)
      ensures old(disponible) ==> r.Returned?
                                  && Contents == Otorgar(old(Contents), usuarioId, libroCodigo, fechaInicio, fechaFin, id).1
                                  && (r.value == null <==> Otorgar(old(Contents), usuarioId, libroCodigo, fechaInicio, fechaFin, id).0 == None)
      ensures r == IllegalState || r == Returned(null) ==> prestamoRepo.prestamos == old(prestamoRepo.prestamos)
      ensures r.Returned? && r.value != null ==>
                && fresh(r.value) && prestamoRepo.prestamos == old(prestamoRepo.prestamos)[id := r.value]
                && Otorgar(old(Contents), usuarioId, libroCodigo, fechaInicio, fechaFin, id).0 == Some(r.value.View())
    {
      if !disponible {
        r := IllegalState;
        return;
      }
      var hay := ValidarDisponibilidad(libroCodigo);
      if hay != Returned(true) {
        r := Returned(null);
        return;
      }
      var p := Conceder(usuarioId, libroCodigo, fechaInicio, fechaFin, id);
      r := Returned(p);
    }
  }
}
