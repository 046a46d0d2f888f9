/**
 * ReplicaManager: owns the primary and replica engines, the composite built over them,
 * and the "primary is active" flag, which it only ever switches off (failover; there is
 * no failback). Failover first tries to resynchronise the replica's data files from the
 * primary's and then switches the flag, whatever the resynchronisation did.
 *
 * The disk is a map from path to file contents. The resynchronisation copies each data
 * file `data/primaria/<f>` that exists onto `data/replica/<f>`, through a temporary
 * `data/replica/<f>.tmp`, holding a lock file on each side taken in a fixed order. Which
 * I/O steps fail is a parameter: creating the replica directory, taking a file's locks,
 * or copying a file.
 */
module ReplicaManagement {
  import opened Text
  import opened Storage
  import opened Replication

  type Archivos = map<string, string>

  /** The data files the resynchronisation copies, in this order. */
  const FICHEROS: seq<string> := ["libros.db", "prestamos.db"]

  const DIR_PRIMARIA: string := "data/primaria"
  const DIR_REPLICA: string := "data/replica"

  /** `dir.resolve(nombre).toString()` with the POSIX separator. */
  function Ruta(dir: string, nombre: string): string
  {
    dir + "/" + nombre
  }

  function Origen(f: string): string { Ruta(DIR_PRIMARIA, f) }
  function Destino(f: string): string { Ruta(DIR_REPLICA, f) }
  function LockOrigen(f: string): string { Ruta(DIR_PRIMARIA, f + ".lock") }
  function LockDestino(f: string): string { Ruta(DIR_REPLICA, f + ".lock") }
  function Temporal(f: string): string { Ruta(DIR_REPLICA, f + ".tmp") }

  /** No path under the primary's directory is a path under the replica's. */
  lemma DirectoriosDistintos(x: string, y: string)
    ensures Ruta(DIR_PRIMARIA, x) != Ruta(DIR_REPLICA, y)
  {
    assert Ruta(DIR_PRIMARIA, x)[5] == 'p' && Ruta(DIR_REPLICA, y)[5] == 'r';
  }

  /** Names that start differently name different files of one directory. */
  lemma NombresDistintos(d: string, x: string, y: string)
    requires x != [] && y != [] && x[0] != y[0]
    ensures Ruta(d, x) != Ruta(d, y)
  {
    assert Ruta(d, x)[|d| + 1] == x[0] && Ruta(d, y)[|d| + 1] == y[0];
  }

  // ---------------------------------------------------------------- lock order

  /**
   * The order the two locks are taken in: the path that compareTo puts first (ties to
   * the first argument), then the other one.
   */
  function OrdenLocks(a: string, b: string): (orden: (string, string))
    ensures LexLe(orden.0, orden.1)
    ensures (orden.0 == a && orden.1 == b) || (orden.0 == b && orden.1 == a)
  {
    if LexLe(a, b) then (a, b) else (LexLeTotal(a, b); (b, a))
  }

  /** Two processes locking the same two distinct paths take them in the same order, whichever is their source. */
  lemma OrdenLocksSimetrico(a: string, b: string)
    requires a != b
    ensures OrdenLocks(a, b) == OrdenLocks(b, a)
  {
    LexLeTotal(a, b);
    if LexLe(a, b) && LexLe(b, a) {
      LexLeAntisymmetric(a, b);
    }
  }

  /** Strings that agree up to a first difference are ordered by that difference. */
  lemma {:induction false} LexLeTrasPrefijo(c: string, x: char, y: char, s: string, t: string)
    requires x < y
    ensures LexLe(c + [x] + s, c + [y] + t)
  {
    if c != [] {
      LexLeTrasPrefijo(c[1..], x, y, s, t);
      assert (c + [x] + s)[1..] == c[1..] + [x] + s;
      assert (c + [y] + t)[1..] == c[1..] + [y] + t;
    }
  }

  /** For every file, the primary's lock path sorts first, so it is always taken first. */
  lemma LockOrigenPrimero(f: string)
    ensures OrdenLocks(LockOrigen(f), LockDestino(f)) == (LockOrigen(f), LockDestino(f))
  {
    var resto := f + ".lock";
    assert LockOrigen(f) == "data/" + ['p'] + ("rimaria/" + resto);
    assert LockDestino(f) == "data/" + ['r'] + ("eplica/" + resto);
    LexLeTrasPrefijo("data/", 'p', 'r', "rimaria/" + resto, "eplica/" + resto);
  }

  // ---------------------------------------------------------------- resynchronisation

  /** `new RandomAccessFile(ruta, "rw")`: creates an empty file when there is none. */
  function CrearSiFalta(m: Archivos, ruta: string): (r: Archivos)
    ensures ruta in r && r.Keys == m.Keys + {ruta}
    ensures forall p :: p in m ==> r[p] == m[p]
  {
    if ruta in m then m else m[ruta := ""]
  }

  /**
   * One turn of the loop for the data file `f`: a missing source is skipped; a failure
   * to take the locks changes nothing; otherwise both lock files exist afterwards, the
   * temporary file is gone (moved onto the destination, or deleted after a failed copy),
   * and on success the destination holds the source's contents. The flag says whether
   * this file was copied.
   */
  function Paso(m: Archivos, f: string, fallaLocks: set<string>, fallaCopia: set<string>): (bool, Archivos)
  {
    if Origen(f) !in m || f in fallaLocks then (false, m)
    else
      var orden := OrdenLocks(LockOrigen(f), LockDestino(f));
      var conLocks := CrearSiFalta(CrearSiFalta(m, orden.0), orden.1);
      var sinTemporal := conLocks - {Temporal(f)};
      if f in fallaCopia then (false, sinTemporal) else (true, sinTemporal[Destino(f) := m[Origen(f)]])
  }

  /** The loop over `nombres`, in order: whether any file was copied, and the disk afterwards. */
  function SyncDesde(m: Archivos, nombres: seq<string>, fallaLocks: set<string>, fallaCopia: set<string>): (bool, Archivos)
    decreases |nombres|
  {
    if nombres == [] then (false, m)
    else
      var primero := Paso(m, nombres[0], fallaLocks, fallaCopia);
      var resto := SyncDesde(primero.1, nombres[1..], fallaLocks, fallaCopia);
      (primero.0 || resto.0, resto.1)
  }

  /** syncReplicaFromPrimary: nothing happens and false is returned when the replica directory cannot be created. */
  function Sync(m: Archivos, fallaDirectorio: bool, fallaLocks: set<string>, fallaCopia: set<string>): (bool, Archivos)
  {
    if fallaDirectorio then (false, m) else SyncDesde(m, FICHEROS, fallaLocks, fallaCopia)
  }

  /** A data file that is copied successfully. */
  predicate Copiable(m: Archivos, f: string, fallaLocks: set<string>, fallaCopia: set<string>)
  {
    Origen(f) in m && f !in fallaLocks && f !in fallaCopia
  }

  /** Neither turn of the loop touches a file of the primary's data directory. */
  lemma PasoDejaOrigenes(m: Archivos, f: string, g: string, fallaLocks: set<string>, fallaCopia: set<string>)
    requires f in FICHEROS && g in FICHEROS
    ensures var r := Paso(m, f, fallaLocks, fallaCopia).1;
            (Origen(g) in r <==> Origen(g) in m) && (Origen(g) in m ==> r[Origen(g)] == m[Origen(g)])
  {
    if Origen(f) in m && f !in fallaLocks {
      if g != f {
        NombresDistintos(DIR_PRIMARIA, g, f + ".lock");
      }
      DirectoriosDistintos(g, f + ".lock");
      DirectoriosDistintos(g, f + ".tmp");
      DirectoriosDistintos(g, f);
    }
  }

  /**
   * syncReplicaFromPrimary returns true exactly when the replica directory was created and
   * at least one data file existed on the primary side and was copied.
   */
  lemma SyncDevuelveAlgunoCopiado(m: Archivos, fallaDirectorio: bool, fallaLocks: set<string>, fallaCopia: set<string>)
    ensures Sync(m, fallaDirectorio, fallaLocks, fallaCopia).0 <==>
            !fallaDirectorio && exists f :: f in FICHEROS && Copiable(m, f, fallaLocks, fallaCopia)
  {
    if !fallaDirectorio {
      var p1 := Paso(m, FICHEROS[0], fallaLocks, fallaCopia);
      PasoDejaOrigenes(m, FICHEROS[0], FICHEROS[1], fallaLocks, fallaCopia);
      assert FICHEROS[1..] == [FICHEROS[1]] && FICHEROS[2..] == [];
      assert SyncDesde(m, FICHEROS, fallaLocks, fallaCopia).0 ==
             (p1.0 || Paso(p1.1, FICHEROS[1], fallaLocks, fallaCopia).0);
      assert forall f :: f in FICHEROS <==> f == FICHEROS[0] || f == FICHEROS[1];
    }
  }

  /** The primary's data files are never written by the resynchronisation. */
  lemma SyncDejaPrimaria(m: Archivos, fallaDirectorio: bool, fallaLocks: set<string>, fallaCopia: set<string>, f: string)
    requires f in FICHEROS && Origen(f) in m
    ensures var r := Sync(m, fallaDirectorio, fallaLocks, fallaCopia).1;
            Origen(f) in r && r[Origen(f)] == m[Origen(f)]
  {
    if !fallaDirectorio {
      var p1 := Paso(m, FICHEROS[0], fallaLocks, fallaCopia);
      PasoDejaOrigenes(m, FICHEROS[0], f, fallaLocks, fallaCopia);
      PasoDejaOrigenes(p1.1, FICHEROS[1], f, fallaLocks, fallaCopia);
      assert FICHEROS[1..] == [FICHEROS[1]] && FICHEROS[2..] == [];
    }
  }

  /** After a successful copy of `f` the replica's file holds the primary's contents. */
  lemma SyncCopia(m: Archivos, fallaLocks: set<string>, fallaCopia: set<string>, f: string)
    requires f in FICHEROS && Copiable(m, f, fallaLocks, fallaCopia)
    ensures var r := Sync(m, false, fallaLocks, fallaCopia).1;
            Destino(f) in r && r[Destino(f)] == m[Origen(f)]
  {
    var p1 := Paso(m, FICHEROS[0], fallaLocks, fallaCopia);
    var p2 := Paso(p1.1, FICHEROS[1], fallaLocks, fallaCopia);
    assert FICHEROS[1..] == [FICHEROS[1]] && FICHEROS[2..] == [];
    assert Sync(m, false, fallaLocks, fallaCopia).1 == p2.1;
    PasoDejaOrigenes(m, FICHEROS[0], FICHEROS[1], fallaLocks, fallaCopia);
    if f == FICHEROS[0] {
      assert Destino(f) != LockOrigen(FICHEROS[1]) && Destino(f) != LockDestino(FICHEROS[1]);
      assert Destino(f) != Temporal(FICHEROS[1]) && Destino(f) != Destino(FICHEROS[1]);
    }
  }

  /** The replica's copy of `f` is up to date, its locks exist and no temporary file is left. */
  ghost predicate AlDia(m: Archivos, f: string)
  {
    Origen(f) in m ==>
      && LockOrigen(f) in m && LockDestino(f) in m && Temporal(f) !in m
      && Destino(f) in m && m[Destino(f)] == m[Origen(f)]
  }

  /** A turn with no failure brings its own file up to date. */
  lemma PasoPoneAlDia(m: Archivos, f: string)
    requires f in FICHEROS
    ensures AlDia(Paso(m, f, {}, {}).1, f)
  {
    var r := Paso(m, f, {}, {}).1;
    if Origen(f) in m {
      DirectoriosDistintos(f, f);
      DirectoriosDistintos(f, f + ".lock");
    }
  }

  /** A turn on one data file leaves the other data file's state alone. */
  lemma PasoConservaAlDia(m: Archivos, f: string, g: string)
    requires f in FICHEROS && g in FICHEROS && f != g && AlDia(m, g)
    ensures AlDia(Paso(m, f, {}, {}).1, g)
  {
    var r := Paso(m, f, {}, {}).1;
    assert f[0] != g[0];
    forall x, y | x in [g, g + ".lock", g + ".tmp"] && y in [f, f + ".lock", f + ".tmp"]
      ensures Ruta(DIR_PRIMARIA, x) != Ruta(DIR_PRIMARIA, y) && Ruta(DIR_REPLICA, x) != Ruta(DIR_REPLICA, y)
      ensures Ruta(DIR_PRIMARIA, x) != Ruta(DIR_REPLICA, y)
    {
      assert x[0] == g[0] && y[0] == f[0];
      NombresDistintos(DIR_PRIMARIA, x, y);
      NombresDistintos(DIR_REPLICA, x, y);
      DirectoriosDistintos(x, y);
    }
    PasoDejaOrigenes(m, f, g, {}, {});
  }

  /** A turn on a file that is up to date changes nothing. */
  lemma PasoSobreAlDia(m: Archivos, f: string)
    requires AlDia(m, f)
    ensures Paso(m, f, {}, {}).1 == m
  {
    if Origen(f) in m {
      var orden := OrdenLocks(LockOrigen(f), LockDestino(f));
      assert CrearSiFalta(CrearSiFalta(m, orden.0), orden.1) == m;
      assert m - {Temporal(f)} == m;
      assert m[Destino(f) := m[Origen(f)]] == m;
    }
  }

  /** With no failure, resynchronising twice leaves the disk as resynchronising once. */
  lemma SyncIdempotente(m: Archivos)
    ensures var r := Sync(m, false, {}, {}).1; Sync(r, false, {}, {}).1 == r
  {
    var a := FICHEROS[0];
    var b := FICHEROS[1];
    assert FICHEROS[1..] == [b] && FICHEROS[2..] == [];
    var p1 := Paso(m, a, {}, {}).1;
    var r := Paso(p1, b, {}, {}).1;
    assert Sync(m, false, {}, {}).1 == r;
    PasoPoneAlDia(m, a);
    PasoConservaAlDia(p1, b, a);
    PasoPoneAlDia(p1, b);
    PasoSobreAlDia(r, a);
    PasoSobreAlDia(r, b);
    assert Sync(r, false, {}, {}).1 == Paso(Paso(r, a, {}, {}).1, b, {}, {}).1;
  }

  // ---------------------------------------------------------------- the manager

  /** A manager is never one of an engine's objects. */
  lemma ManagerFuera(rm: ReplicaManager, g: GestorAlmacenamiento)
    ensures rm !in g.Repr()
  {
  }

  /** The disk is not part of an engine's footprint, so serving a request leaves the files alone. */
  lemma DiscoFuera(d: Disco, g: GestorAlmacenamiento)
    ensures d !in g.Repr()
  {
  }

  /** The file system the data files live on. */
  class Disco {
    var archivos: Archivos

    constructor (archivos: Archivos)
      ensures this.archivos == archivos
    {
      this.archivos := archivos;
    }
  }

  class ReplicaManager {
    const primaria: GestorAlmacenamiento
    const replica: GestorAlmacenamiento
    const compuesto: GestorAlmacenamientoConReplica
    const disco: Disco
    var primariaActiva: bool

    /** The composite works on this manager's engines, which are consistent and separate, and shares its flag. */
    ghost predicate Valid()
      reads this, compuesto, primaria.Repr(), replica.Repr()
    {
      && compuesto.primaria == primaria && compuesto.replica == replica
      && compuesto.Valid()
      && compuesto.primariaActiva == primariaActiva
    }

    /**
     * The flag starts true, the composite is built over the two engines reading that flag,
     * and a resynchronisation is attempted; its result, or failure, does not stop construction.
     * The manager is consistent whenever the two engines given to it are consistent and separate.
     */
    constructor (primaria: GestorAlmacenamiento, replica: GestorAlmacenamiento, disco: Disco,
                 fallaDirectorio: bool, fallaLocks: set<string>, fallaCopia: set<string>)
      modifies disco
      ensures this.primaria == primaria && this.replica == replica && this.disco == disco
      ensures primariaActiva && fresh(compuesto)
      ensures compuesto.primaria == primaria && compuesto.replica == replica
      ensures compuesto.primariaActiva && compuesto.pendientes == []
      ensures disco.archivos == Sync(old(disco.archivos), fallaDirectorio, fallaLocks, fallaCopia).1
      ensures primaria.Valid() && replica.Valid() && Separados(primaria, replica) ==> Valid()
    {
      this.primaria := primaria;
      this.replica := replica;
      this.disco := disco;
      primariaActiva := true;
      compuesto := new GestorAlmacenamientoConReplica(primaria, replica, true);
      new;
      var _ := SyncReplicaFromPrimary(fallaDirectorio, fallaLocks, fallaCopia);
    }

    /** getActivo: always the composite built by the constructor. */
    function GetActivo(): (c: GestorAlmacenamientoConReplica)
      ensures c == compuesto
    {
      compuesto
    }

    /**
     * syncReplicaFromPrimary: the loop over FICHEROS, in order, accumulating whether any
     * file was copied.
     */
    method SyncReplicaFromPrimary(fallaDirectorio: bool, fallaLocks: set<string>, fallaCopia: set<string>)
      returns (anyOk: bool)
      modifies disco
      ensures (anyOk, disco.archivos) == Sync(old(disco.archivos), fallaDirectorio, fallaLocks, fallaCopia)
    {
      if fallaDirectorio {
        return false;
      }
      anyOk := false;
      var i := 0;
      while i < |FICHEROS|
        invariant 0 <= i <= |FICHEROS|
        invariant var resto := SyncDesde(disco.archivos, FICHEROS[i..], fallaLocks, fallaCopia);
                  (anyOk || resto.0, resto.1) == SyncDesde(old(disco.archivos), FICHEROS, fallaLocks, fallaCopia)
      {
        var f := FICHEROS[i];
        assert FICHEROS[i..] == [f] + FICHEROS[i + 1..];
        var paso := Paso(disco.archivos, f, fallaLocks, fallaCopia);
        disco.archivos := paso.1;
        anyOk := anyOk || paso.0;
        i := i + 1;
      }
    }

    /** The flag changes in the manager and then in the composite; nothing else does. */
    method Conmutar()
      requires Valid()
      modifies this`primariaActiva, compuesto`primariaActiva
      ensures Valid() && !primariaActiva
    {
      primariaActiva := false;
      compuesto.SetPrimariaActiva(false);
    }

    /**
     * conmutarAReplica: resynchronise, ignoring the outcome, then switch both flags off.
     * The flag ends false whether the resynchronisation copied, failed, or had nothing to copy.
     */
    method ConmutarAReplica(fallaDirectorio: bool, fallaLocks: set<string>, fallaCopia: set<string>)
      requires Valid()
      modifies this`primariaActiva, compuesto`primariaActiva, disco
      ensures Valid() && !primariaActiva && !compuesto.primariaActiva
      ensures disco.archivos == Sync(old(disco.archivos), fallaDirectorio, fallaLocks, fallaCopia).1
    {
      var _ := SyncReplicaFromPrimary(fallaDirectorio, fallaLocks, fallaCopia);
      Conmutar();
    }
  }
}
