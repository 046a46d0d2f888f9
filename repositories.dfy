/**
 * The in-memory repositories: a map from a book's code to the Libro object and
 * a map from a loan's id to the Prestamo object. They hold references, so a
 * record found here and then changed through its setters is changed in the
 * repository too.
 */
module Repositories {
  import opened Entities

  class InMemoryLibroRepository {
    var libros: map<string, Libro>

    /** Every book is filed under its own code, as `save` files it. */
    ghost predicate Valid()
      reads this, libros.Values
    {
      forall c :: c in libros ==> libros[c].codigo == c
    }

    constructor ()
      ensures Valid() && libros == map[]
    {
      libros := map[];
    }

    /** findByCodigo: the book filed under `codigo`, or null when there is none. */
    function FindByCodigo(codigo: string): (l: Libro?)
      reads this, libros.Values
      ensures l == null <==> codigo !in libros
      ensures l != null ==> l in libros.Values
      ensures Valid() && l != null ==> l.codigo == codigo
    {
      if codigo in libros then libros[codigo] else null
    }

    /** save: files `l` under its code, replacing whatever was there; other codes keep their book. */
    method Save(l: Libro)
      modifies this
      ensures old(Valid()) ==> Valid()
      ensures libros == old(libros)[l.codigo := l]
      ensures FindByCodigo(l.codigo) == l
      ensures forall c :: c != l.codigo ==> FindByCodigo(c) == old(FindByCodigo(c))
    {
      libros := libros[l.codigo := l];
    }
  }

  class InMemoryPrestamoRepository {
    var prestamos: map<string, Prestamo>

    /** Every loan is filed under its own id, as `save` files it. */
    ghost predicate Valid()
      reads this, prestamos.Values
    {
      forall i :: i in prestamos ==> prestamos[i].id == i
    }

    constructor ()
      ensures Valid() && prestamos == map[]
    {
      prestamos := map[];
    }

    /** findById: the loan filed under `id`, or null when there is none. */
    function FindById(id: string): (p: Prestamo?)
      reads this, prestamos.Values
      ensures p == null <==> id !in prestamos
      ensures p != null ==> p in prestamos.Values
      ensures Valid() && p != null ==> p.id == id
    {
      if id in prestamos then prestamos[id] else null
    }

    /** save: files `p` under its id, replacing whatever was there; other ids keep their loan. */
    method Save(p: Prestamo)
      modifies this
      ensures old(Valid()) ==> Valid()
      ensures prestamos == old(prestamos)[p.id := p]
      ensures FindById(p.id) == p
      ensures forall i :: i != p.id ==> FindById(i) == old(FindById(i))
    {
      prestamos := prestamos[p.id := p];
    }
  }
}
