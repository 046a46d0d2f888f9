/**
 * The two mutable records of the store: a book (Libro) and a loan (Prestamo).
 * Both are classes because the storage engine changes them in place through
 * their setters. `View()` gives the value a record currently holds.
 */
module Entities {

  datatype PrestamoEstado = Activo | Devuelto

  /** The value held by a Libro object. */
  datatype LibroRec = LibroRec(codigo: string, titulo: string, autor: string, ejemplaresDisponibles: int)

  /** The value held by a Prestamo object. */
  datatype PrestamoRec = PrestamoRec(
    id: string,
    usuarioId: string,
    libroCodigo: string,
    fechaInicio: string,
    fechaFin: string,
    renovaciones: int,
    estado: PrestamoEstado)

  class Libro {
    var codigo: string
    var titulo: string
    var autor: string
    var ejemplaresDisponibles: int

    function View(): LibroRec
      reads this
    {
      LibroRec(codigo, titulo, autor, ejemplaresDisponibles)
    }

    /** Stores the four fields as given; a negative count is accepted. */
    constructor (codigo: string, titulo: string, autor: string, ejemplaresDisponibles: int)
      ensures View() == LibroRec(codigo, titulo, autor, ejemplaresDisponibles)
    {
      this.codigo := codigo;
      this.titulo := titulo;
      this.autor := autor;
      this.ejemplaresDisponibles := ejemplaresDisponibles;
    }

    method SetCodigo(codigo: string)
      modifies this
      ensures View() == old(View()).(codigo := codigo)
    {
      this.codigo := codigo;
    }

    method SetTitulo(titulo: string)
      modifies this
      ensures View() == old(View()).(titulo := titulo)
    {
      this.titulo := titulo;
    }

    method SetAutor(autor: string)
      modifies this
      ensures View() == old(View()).(autor := autor)
    {
      this.autor := autor;
    }

    /** No validation: any int, negative included, is stored. */
    method SetEjemplaresDisponibles(ejemplaresDisponibles: int)
      modifies this
      ensures View() == old(View()).(ejemplaresDisponibles := ejemplaresDisponibles)
    {
      this.ejemplaresDisponibles := ejemplaresDisponibles;
    }
  }

  class Prestamo {
    var id: string
    var usuarioId: string
    var libroCodigo: string
    var fechaInicio: string
    var fechaFin: string
    var renovaciones: int
    var estado: PrestamoEstado

    function View(): PrestamoRec
      reads this
    {
      PrestamoRec(id, usuarioId, libroCodigo, fechaInicio, fechaFin, renovaciones, estado)
    }

    constructor (id: string, usuarioId: string, libroCodigo: string, fechaInicio: string,
                 fechaFin: string, renovaciones: int, estado: PrestamoEstado)
      ensures View() == PrestamoRec(id, usuarioId, libroCodigo, fechaInicio, fechaFin, renovaciones, estado)
    {
      this.id := id;
      this.usuarioId := usuarioId;
      this.libroCodigo := libroCodigo;
      this.fechaInicio := fechaInicio;
      this.fechaFin := fechaFin;
      this.renovaciones := renovaciones;
      this.estado := estado;
    }

    method SetId(id: string)
      modifies this
      ensures View() == old(View()).(id := id)
    {
      this.id := id;
    }

    method SetUsuarioId(usuarioId: string)
      modifies this
      ensures View() == old(View()).(usuarioId := usuarioId)
    {
      this.usuarioId := usuarioId;
    }

    method SetLibroCodigo(libroCodigo: string)
      modifies this
      ensures View() == old(View()).(libroCodigo := libroCodigo)
    {
      this.libroCodigo := libroCodigo;
    }

    method SetFechaInicio(fechaInicio: string)
      modifies this
      ensures View() == old(View()).(fechaInicio := fechaInicio)
    {
      this.fechaInicio := fechaInicio;
    }

    method SetFechaFin(fechaFin: string)
      modifies this
      ensures View() == old(View()).(fechaFin := fechaFin)
    {
      this.fechaFin := fechaFin;
    }

    /** No bounds check: any int is stored. */
    method SetRenovaciones(renovaciones: int)
      modifies this
      ensures View() == old(View()).(renovaciones := renovaciones)
    {
      this.renovaciones := renovaciones;
    }

    method SetEstado(estado: PrestamoEstado)
      modifies this
      ensures View() == old(View()).(estado := estado)
    {
      this.estado := estado;
    }
  }
}
