# Library loans: storage, replication and failover core

This project is a Dafny model of the core of a library-loan system. A request front end
sends loan (PRESTAMO), return (DEVOLUCION) and renewal (RENOVACION) messages. The dispatcher
`GestorCarga` acknowledges returns and renewals and publishes them to the actors. The actor
`ActorPrestamo` serves each loan request synchronously.

Every request is served by a storage engine, `GestorAlmacenamiento`. The engine keeps books
(`Libro`) and loans (`Prestamo`) in two repositories. It raises `IllegalStateException` when
it is switched off.

`GestorAlmacenamientoConReplica` groups a primary engine and a replica engine:

- While the primary serves, every write goes to the primary first. A replay of that write
  is then queued on a single-thread replication lane.
- After failover, every call goes to the replica alone.

`ReplicaManager` owns the flag that says which side serves. Its `conmutarAReplica`
resynchronises the replica's data files from the primary's under two lock files, then
switches the flag off.

Other parts of the core:

- `DurableQueue` is a text file holding one item per line.
- `Utils` reads the `key=value` fields of a message and the Lamport stamp `ts`.

How the model is organised, module by module (`Wrappers` holds `Option` and `Outcome`):

- `Entities`, `Repositories`: `Libro` and `Prestamo` are classes, because the engine changes
  them in place through their setters. The in-memory repositories are classes holding a map
  of object references.
- `Storage`: the engine class. Its ghost `Contents` holds the values of all filed records.
  Each public operation is proved to have the effect of a pure function on those values:
  `Devolver`, `Renovar`, `Otorgar` and `HayDisponibilidad`. Unavailability is
  `Outcome.IllegalState`.
- `StorageProps`: what those functions keep and change, one operation at a time and over any
  run of operations. It also covers what a replay does on the replica.
- `Replication`: the composite class. The replication executor is a FIFO sequence
  `pendientes`, and `Replicar` is one step of the executor thread.
- `ReplicaManagement`: the file system as a map from path to contents, and the
  resynchronisation loop. Failures of directory creation, of lock acquisition and of the
  copy are parameters. It also holds the lock order and the manager class.
- `Queue`: the durable queue, with the file as its text.
- `Text`: Java `String.trim`, `indexOf`, `split`, `compareTo`, and `Long.parseLong` /
  `Long.toString`.
- `Utils`: `parseKeyValues` and `extractTs`.
- `Prestamos`: the actor's set-up and one turn of its loop, including the Lamport clock and
  the reply formats.
- `Carga`: the dispatcher. Everything it sends on both sockets is one trace of events.

Behaviours of the code that the model proves and keeps as they are written:

- The engine does not check that a loan is still active. Returning it twice gives its book
  two copies back (`StorageProps.DobleDevolucion`).
- A replayed grant makes the replica draw its own UUID. The replica therefore files the same
  loan under a different id than the primary (`StorageProps.OtorgarReplicaOtroId`).
- `otorgarPrestamo` on the primary always submits a replication task, even when no loan was
  granted; that replication job then does nothing. The model queues a `ReplayOtorgar(null)`, which
  drains as a no-op.
- `syncReplicaFromPrimary` copies files only. The running replica engine's tables are not
  changed by it.
- The dispatcher's NACK reply is `NACK:OperacionDesconocida`, and a PRESTAMO payload is
  answered with it.

## Model

| member | source | states |
|---|---|---|
| Entities.Libro.constructor | src/main/java/co/javeriana/Libro.java:15-20 | the new book holds the code, title, author and count given, a negative count included |
| Entities.Libro.SetCodigo | src/main/java/co/javeriana/Libro.java:23 | only the code changes |
| Entities.Libro.SetTitulo | src/main/java/co/javeriana/Libro.java:26 | only the title changes |
| Entities.Libro.SetAutor | src/main/java/co/javeriana/Libro.java:29 | only the author changes |
| Entities.Libro.SetEjemplaresDisponibles | src/main/java/co/javeriana/Libro.java:32 | only the available-copies count changes, to any int |
| Entities.Prestamo.constructor | src/main/java/co/javeriana/Prestamo.java:18-26 | the new loan holds the seven values given |
| Entities.Prestamo.SetId | src/main/java/co/javeriana/Prestamo.java:29 | only the id changes |
| Entities.Prestamo.SetUsuarioId | src/main/java/co/javeriana/Prestamo.java:32 | only the user changes |
| Entities.Prestamo.SetLibroCodigo | src/main/java/co/javeriana/Prestamo.java:35 | only the book code changes |
| Entities.Prestamo.SetFechaInicio | src/main/java/co/javeriana/Prestamo.java:38 | only the start date changes |
| Entities.Prestamo.SetFechaFin | src/main/java/co/javeriana/Prestamo.java:41 | only the end date changes |
| Entities.Prestamo.SetRenovaciones | src/main/java/co/javeriana/Prestamo.java:44 | only the renewal count changes, with no bound check |
| Entities.Prestamo.SetEstado | src/main/java/co/javeriana/Prestamo.java:47 | only the state changes |
| Repositories.InMemoryLibroRepository.constructor | src/main/java/co/javeriana/InMemoryLibroRepository.java:7 | a new repository is empty and files every book under its own code |
| Repositories.InMemoryLibroRepository.FindByCodigo | src/main/java/co/javeriana/InMemoryLibroRepository.java:10-12 | null exactly when no book is filed under the code; otherwise a filed book whose code is that code |
| Repositories.InMemoryLibroRepository.Save | src/main/java/co/javeriana/InMemoryLibroRepository.java:15-17 | the book is filed under its code, replacing the previous one; every other code keeps its book; filing by own code is preserved |
| Repositories.InMemoryPrestamoRepository.constructor | src/main/java/co/javeriana/InMemoryPrestamoRepository.java:7 | a new repository is empty and files every loan under its own id |
| Repositories.InMemoryPrestamoRepository.FindById | src/main/java/co/javeriana/InMemoryPrestamoRepository.java:10-12 | null exactly when no loan is filed under the id; otherwise a filed loan whose id is that id |
| Repositories.InMemoryPrestamoRepository.Save | src/main/java/co/javeriana/InMemoryPrestamoRepository.java:15-17 | the loan is filed under its id, replacing the previous one; every other id keeps its loan; filing by own id is preserved |
| Storage.GestorAlmacenamiento.constructor | src/main/java/co/javeriana/GestorAlmacenamiento.java:10-13 | a new engine is available and works on the repositories it is given |
| Storage.GestorAlmacenamiento.SetDisponible | src/main/java/co/javeriana/GestorAlmacenamiento.java:15-17 | only the availability flag changes |
| Storage.GestorAlmacenamiento.CambiarEstado | src/main/java/co/javeriana/GestorAlmacenamiento.java:28 | the loan's stored value changes in its state alone |
| Storage.GestorAlmacenamiento.ResguardarPrestamo | src/main/java/co/javeriana/GestorAlmacenamiento.java:29 | saving a loan that is already filed changes no table |
| Storage.GestorAlmacenamiento.GuardarEstado | src/main/java/co/javeriana/GestorAlmacenamiento.java:28-29 | set-state-then-save changes that loan's state and nothing else |
| Storage.GestorAlmacenamiento.CambiarEjemplares | src/main/java/co/javeriana/GestorAlmacenamiento.java:33 | the book's stored value changes in its count alone |
| Storage.GestorAlmacenamiento.ResguardarLibro | src/main/java/co/javeriana/GestorAlmacenamiento.java:34 | saving a book that is already filed changes no table |
| Storage.GestorAlmacenamiento.GuardarEjemplares | src/main/java/co/javeriana/GestorAlmacenamiento.java:33-34 | set-count-then-save changes that book's count and nothing else |
| Storage.GestorAlmacenamiento.ReponerLibro | src/main/java/co/javeriana/GestorAlmacenamiento.java:31-35 | the book on the loan, if filed, gains one copy; a missing book changes nothing |
| Storage.GestorAlmacenamiento.Devolucion | src/main/java/co/javeriana/GestorAlmacenamiento.java:25-36 | on an available engine, the answer and the new tables are those of Devolver |
| Storage.GestorAlmacenamiento.RegistrarDevolucion | src/main/java/co/javeriana/GestorAlmacenamiento.java:19-37 | raises and changes nothing when unavailable; otherwise answers and changes the tables as Devolver says |
| Storage.GestorAlmacenamiento.CambiarRenovaciones | src/main/java/co/javeriana/GestorAlmacenamiento.java:46 | the loan's stored value changes in its renewal count alone |
| Storage.GestorAlmacenamiento.CambiarFechaFin | src/main/java/co/javeriana/GestorAlmacenamiento.java:47 | the loan's stored value changes in its end date alone |
| Storage.GestorAlmacenamiento.CambiarRenovacion | src/main/java/co/javeriana/GestorAlmacenamiento.java:46-47 | the loan is renewed once more and ends on the new date |
| Storage.GestorAlmacenamiento.GuardarRenovacion | src/main/java/co/javeriana/GestorAlmacenamiento.java:46-48 | the renewal, then the save, changes that loan only |
| Storage.GestorAlmacenamiento.Renovacion | src/main/java/co/javeriana/GestorAlmacenamiento.java:41-49 | on an available engine, the answer and the new tables are those of Renovar |
| Storage.GestorAlmacenamiento.RegistrarRenovacion | src/main/java/co/javeriana/GestorAlmacenamiento.java:19-50 | raises and changes nothing when unavailable; otherwise answers and changes the tables as Renovar says |
| Storage.GestorAlmacenamiento.ValidarDisponibilidad | src/main/java/co/javeriana/GestorAlmacenamiento.java:52-56 | raises when unavailable; otherwise true exactly when the book is filed with a positive count |
| Storage.GestorAlmacenamiento.RetirarEjemplar | src/main/java/co/javeriana/GestorAlmacenamiento.java:62-64 | the filed book loses one copy; nothing else changes |
| Storage.GestorAlmacenamiento.ArchivarNuevo | src/main/java/co/javeriana/GestorAlmacenamiento.java:68 | a new loan object is filed under its id, and the books are unchanged |
| Storage.GestorAlmacenamiento.CrearPrestamo | src/main/java/co/javeriana/GestorAlmacenamiento.java:66-68 | a fresh ACTIVO loan with no renewals is filed under the drawn id and returned |
| Storage.GestorAlmacenamiento.Conceder | src/main/java/co/javeriana/GestorAlmacenamiento.java:62-69 | with a copy available, the returned loan and the new tables are exactly what Otorgar grants |
| Storage.GestorAlmacenamiento.OtorgarPrestamo | src/main/java/co/javeriana/GestorAlmacenamiento.java:58-70 | raises and changes nothing when unavailable; null and no change without a copy; otherwise a fresh loan, the one now filed under the drawn id, with the effect of Otorgar |
| StorageProps.DevolverEfecto | src/main/java/co/javeriana/GestorAlmacenamiento.java:23-37 | a return succeeds exactly for a filed loan; a failure changes nothing; success marks the loan DEVUELTO, touching none of its other fields and no other loan, and gives its book, if filed, one copy |
| StorageProps.DobleDevolucion | src/main/java/co/javeriana/GestorAlmacenamiento.java:25-35 | returning the same loan twice succeeds both times and adds two copies |
| StorageProps.RenovarEfecto | src/main/java/co/javeriana/GestorAlmacenamiento.java:39-50 | a renewal succeeds exactly for a filed loan with fewer than 2 renewals; a failure changes nothing; success adds one renewal and sets the end date, touching nothing else |
| StorageProps.TerceraRenovacionFalla | src/main/java/co/javeriana/GestorAlmacenamiento.java:44-48 | starting from no renewals, two renewals succeed, and a third fails and changes nothing |
| StorageProps.OtorgarEfecto | src/main/java/co/javeriana/GestorAlmacenamiento.java:58-70 | a grant happens exactly when validarDisponibilidad holds; a refusal changes nothing; a grant files an ACTIVO loan with no renewals under the drawn id and takes one copy, and the count stays non-negative |
| StorageProps.AplicarSana | src/main/java/co/javeriana/GestorAlmacenamiento.java:23-70 | each write keeps records under their own keys, no negative count, renewals within 0..2 |
| StorageProps.EjecutarSana | src/main/java/co/javeriana/GestorAlmacenamiento.java:23-70 | any run of writes keeps those invariants |
| StorageProps.AplicarCuenta | src/main/java/co/javeriana/GestorAlmacenamiento.java:23-70 | one write moves a filed book's count by its successful return minus its successful grant |
| StorageProps.EjecutarCuenta | src/main/java/co/javeriana/GestorAlmacenamiento.java:23-70 | conservation of copies: after any run, a filed book holds its initial count minus the grants on it that succeeded plus the returns of its loans that succeeded |
| StorageProps.AplicarClaves | src/main/java/co/javeriana/GestorAlmacenamiento.java:23-70 | one write keeps the book codes and adds at most the drawn id to the loan ids |
| StorageProps.EjecutarConservaClaves | src/main/java/co/javeriana/GestorAlmacenamiento.java:23-70 | over any run no record is forgotten: the book codes are fixed, and the loan ids grow only by the ids the grants draw |
| StorageProps.ReplayIgualaEscritura | src/main/java/co/javeriana/GestorAlmacenamientoConReplica.java:45-66 | a replayed return or renewal does to an available replica exactly what the write did to the primary |
| StorageProps.OtorgarReplicaOtroId | src/main/java/co/javeriana/GestorAlmacenamientoConReplica.java:80-85 | from equal tables, a replayed grant leaves the same books but files the loan under the replica's own id, so the primary's id is unknown to the replica |
| Replication.Encolar | src/main/java/co/javeriana/GestorAlmacenamientoConReplica.java:43-51 | a write appends its one replay exactly when the primary answered, and nothing when the primary raised |
| Replication.Resto | src/main/java/co/javeriana/GestorAlmacenamientoConReplica.java:24 | the single-thread executor takes the oldest pending replay first |
| Replication.OtorgarEn | src/main/java/co/javeriana/GestorAlmacenamientoConReplica.java:80 | a grant on one engine keeps its books' objects and adds at most the fresh loan to its loans, with the effect Otorgado states |
| Replication.GestorAlmacenamientoConReplica.constructor | src/main/java/co/javeriana/GestorAlmacenamientoConReplica.java:26-31 | the composite takes the manager's flag and starts with an empty lane |
| Replication.GestorAlmacenamientoConReplica.SetPrimariaActiva | src/main/java/co/javeriana/GestorAlmacenamientoConReplica.java:33-35 | only the flag changes |
| Replication.GestorAlmacenamientoConReplica.Encolado | src/main/java/co/javeriana/GestorAlmacenamientoConReplica.java:45 | the lane grows at its end; no table changes |
| Replication.GestorAlmacenamientoConReplica.DevolucionEnPrimaria | src/main/java/co/javeriana/GestorAlmacenamientoConReplica.java:43 | the primary serves the return as the engine does; the replica and the lane are untouched |
| Replication.GestorAlmacenamientoConReplica.DevolucionEnReplica | src/main/java/co/javeriana/GestorAlmacenamientoConReplica.java:40 | the replica serves the return; the primary and the lane are untouched |
| Replication.GestorAlmacenamientoConReplica.RegistrarDevolucion | src/main/java/co/javeriana/GestorAlmacenamientoConReplica.java:38-53 | after failover only the replica serves and nothing is queued; otherwise the primary's answer and effect, the replica untouched, and the replay queued exactly when the primary answered |
| Replication.GestorAlmacenamientoConReplica.RenovacionEnPrimaria | src/main/java/co/javeriana/GestorAlmacenamientoConReplica.java:59 | the primary serves the renewal; the replica and the lane are untouched |
| Replication.GestorAlmacenamientoConReplica.RenovacionEnReplica | src/main/java/co/javeriana/GestorAlmacenamientoConReplica.java:57 | the replica serves the renewal; the primary and the lane are untouched |
| Replication.GestorAlmacenamientoConReplica.RegistrarRenovacion | src/main/java/co/javeriana/GestorAlmacenamientoConReplica.java:55-68 | routed and queued as registrarDevolucion, with the effect of Renovar |
| Replication.GestorAlmacenamientoConReplica.ValidarDisponibilidad | src/main/java/co/javeriana/GestorAlmacenamientoConReplica.java:70-74 | the serving engine's answer; nothing is queued or changed |
| Replication.GestorAlmacenamientoConReplica.OtorgamientoEnPrimaria | src/main/java/co/javeriana/GestorAlmacenamientoConReplica.java:80 | the primary grants as the engine does; the replica and the lane are untouched |
| Replication.GestorAlmacenamientoConReplica.OtorgamientoEnReplica | src/main/java/co/javeriana/GestorAlmacenamientoConReplica.java:78 | the replica grants; the primary and the lane are untouched |
| Replication.GestorAlmacenamientoConReplica.OtorgarPrestamo | src/main/java/co/javeriana/GestorAlmacenamientoConReplica.java:76-92 | after failover only the replica grants; otherwise the primary grants, and the loan object it returned (null included) is queued exactly when it answered |
| Replication.GestorAlmacenamientoConReplica.Desencolado | src/main/java/co/javeriana/GestorAlmacenamientoConReplica.java:24 | the executor takes the oldest replay and the rest stays in order |
| Replication.GestorAlmacenamientoConReplica.Replicar | src/main/java/co/javeriana/GestorAlmacenamientoConReplica.java:45-90 | one executor step: the oldest replay runs on the replica, a raise is swallowed, a null grant does nothing, the primary is never touched |
| Text.Trim | src/main/java/co/javeriana/Utils.java:16-17 | the result is no longer than the input and has no blank at either end |
| Text.TrimEmptyIffBlank | src/main/java/co/javeriana/DurableQueue.java:43 | trim gives the empty string exactly when every character is at most U+0020 |
| Text.TrimOfTrimmed | src/main/java/co/javeriana/Utils.java:16-17 | trimming a trimmed string changes nothing |
| Text.TrimIdempotent | src/main/java/co/javeriana/Utils.java:16-17 | trim is idempotent |
| Text.TrimKeepsOut | src/main/java/co/javeriana/DurableQueue.java:43 | trim introduces no character |
| Text.IndexOf | src/main/java/co/javeriana/Utils.java:14 | -1 exactly when the character is absent; otherwise its first position |
| Text.JoinPieces | src/main/java/co/javeriana/Utils.java:11 | re-joining the pieces with the separator gives the text back |
| Text.SplitIsPrefixOfPieces | src/main/java/co/javeriana/Utils.java:11 | split drops only trailing empty pieces |
| Text.SplitKeepsLastPiece | src/main/java/co/javeriana/Utils.java:11 | split drops nothing when the last piece is not empty |
| Text.LexLeTotal | src/main/java/co/javeriana/ReplicaManager.java:90 | compareTo orders any two paths |
| Text.LexLeAntisymmetric | src/main/java/co/javeriana/ReplicaManager.java:90 | two paths ordered both ways are equal |
| Text.FormatThenParseLong | src/main/java/co/javeriana/Utils.java:29 | Long.parseLong reads back what Long.toString wrote, for every long |
| Text.ParseLong | src/main/java/co/javeriana/Utils.java:29 | a parsed value is a long, read from an optionally signed non-empty run of ASCII digits |
| Utils.UltimoIndice | src/main/java/co/javeriana/Utils.java:12-19 | the last piece naming the key, or -1 exactly when none does |
| Utils.AgregarUltimo | src/main/java/co/javeriana/Utils.java:12-19 | after the loop, a key holds the value of the last piece naming it, and its old value when no piece names it |
| Utils.ParseKeyValues | src/main/java/co/javeriana/Utils.java:8-22 | the loop over the pieces after the first computes Pares, and the empty map for null |
| Utils.EntradaDeCampo | src/main/java/co/javeriana/Utils.java:14-17 | a well-formed `key=value` piece contributes exactly that key and value |
| Utils.AgregarPiezas | src/main/java/co/javeriana/Utils.java:12-19 | putting the pieces of well-formed fields gives the map of those fields |
| Utils.PiecesOfJoin | src/main/java/co/javeriana/Utils.java:11 | splitting a join of separator-free pieces gives the pieces back |
| Utils.SplitFormatear | src/main/java/co/javeriana/Utils.java:11 | a message built from well-formed fields splits into the operation and the field pieces |
| Utils.ParesDeFormatear | src/main/java/co/javeriana/Utils.java:8-22 | parseKeyValues reads back the fields of a message built from well-formed fields, later ones winning |
| Utils.ExtractTs | src/main/java/co/javeriana/Utils.java:24-33 | a stamp is returned exactly when `ts` is present and parses as a long, and it is that long |
| Utils.LongLegible | src/main/java/co/javeriana/Utils.java:29 | Long.toString output is trimmed and holds no ';', so it survives parseKeyValues |
| Utils.ExtractTsDeFormateado | src/main/java/co/javeriana/Utils.java:24-33 | extractTs returns n from any message whose last field is `ts=` followed by Long.toString(n) |
| ReplicaManagement.DirectoriosDistintos | src/main/java/co/javeriana/ReplicaManager.java:69-70 | no path under data/primaria is a path under data/replica |
| ReplicaManagement.OrdenLocks | src/main/java/co/javeriana/ReplicaManager.java:90-91 | the first lock sorts no later than the second, and the two are the two given paths |
| ReplicaManagement.OrdenLocksSimetrico | src/main/java/co/javeriana/ReplicaManager.java:89-91 | two distinct lock paths are taken in the same order whichever is the source |
| ReplicaManagement.LockOrigenPrimero | src/main/java/co/javeriana/ReplicaManager.java:86-91 | for each data file the primary's lock is always taken first |
| ReplicaManagement.CrearSiFalta | src/main/java/co/javeriana/ReplicaManager.java:93 | opening a lock file creates it when missing and leaves every existing file alone |
| ReplicaManagement.PasoDejaOrigenes | src/main/java/co/javeriana/ReplicaManager.java:81-122 | no turn of the loop writes a primary data file |
| ReplicaManagement.SyncDevuelveAlgunoCopiado | src/main/java/co/javeriana/ReplicaManager.java:66-124 | true exactly when the directory was created and some data file present on the primary side was copied |
| ReplicaManagement.SyncDejaPrimaria | src/main/java/co/javeriana/ReplicaManager.java:81-122 | the primary's data files survive the resynchronisation unchanged |
| ReplicaManagement.SyncCopia | src/main/java/co/javeriana/ReplicaManager.java:102-111 | after a successful copy the replica's file holds the primary's contents |
| ReplicaManagement.PasoPoneAlDia | src/main/java/co/javeriana/ReplicaManager.java:93-111 | a turn with no failure leaves its file copied, both locks present and no temporary file |
| ReplicaManagement.PasoConservaAlDia | src/main/java/co/javeriana/ReplicaManager.java:81-122 | a turn on one data file keeps the other one up to date |
| ReplicaManagement.PasoSobreAlDia | src/main/java/co/javeriana/ReplicaManager.java:102-111 | a turn on an up-to-date file changes nothing |
| ReplicaManagement.SyncIdempotente | src/main/java/co/javeriana/ReplicaManager.java:68-125 | with no failure, resynchronising twice leaves the disk as resynchronising once |
| ReplicaManagement.ReplicaManager.constructor | src/main/java/co/javeriana/ReplicaManager.java:19-30 | the flag starts true; the composite is built over both engines with that flag and an empty lane; the disk is resynchronised, whatever the outcome; the manager is consistent when the engines given are consistent and separate |
| ReplicaManagement.ReplicaManager.GetActivo | src/main/java/co/javeriana/ReplicaManager.java:33-35 | always the composite built by the constructor |
| ReplicaManagement.ReplicaManager.SyncReplicaFromPrimary | src/main/java/co/javeriana/ReplicaManager.java:68-125 | the loop over libros.db then prestamos.db computes Sync: the answer and the new disk |
| ReplicaManagement.ReplicaManager.Conmutar | src/main/java/co/javeriana/ReplicaManager.java:57-58 | the manager's flag and the composite's flag both become false |
| ReplicaManagement.ReplicaManager.ConmutarAReplica | src/main/java/co/javeriana/ReplicaManager.java:45-59 | the disk is resynchronised, its outcome ignored, and both flags end false |
| Queue.FinDeLinea | src/main/java/co/javeriana/DurableQueue.java:41 | the first line ends at the first '\r' or '\n', and holds none itself |
| Queue.LeerLineasSinFin | src/main/java/co/javeriana/DurableQueue.java:41 | no line readAllLines returns holds a terminator |
| Queue.LeerEscribir | src/main/java/co/javeriana/DurableQueue.java:76-77 | lines written one per line are read back exactly |
| Queue.LeerLineasConcat | src/main/java/co/javeriana/DurableQueue.java:31-32 | appending to a file that ends with a newline adds lines after the existing ones |
| Queue.LimpiarConcat | src/main/java/co/javeriana/DurableQueue.java:43 | cleaning works line by line, in order |
| Queue.LimpiarDaLimpios | src/main/java/co/javeriana/DurableQueue.java:43 | every snapshot item is non-blank, trimmed and holds no terminator |
| Queue.LimpiarLimpios | src/main/java/co/javeriana/DurableQueue.java:43 | clean lines are left as they are |
| Queue.SnapshotDeEscribir | src/main/java/co/javeriana/DurableQueue.java:41-43 | writing clean items and taking a snapshot gives them back |
| Queue.ReemplazarSaltos | src/main/java/co/javeriana/DurableQueue.java:32 | the replacement as written leaves no '\n' |
| Queue.AplanarLinea | src/main/java/co/javeriana/DurableQueue.java:32 | the corrected flattening leaves no line terminator at all |
| Queue.AplanarSinRetorno | src/main/java/co/javeriana/DurableQueue.java:32 | on items with no lone '\r', the two flattenings agree |
| Queue.EncolarRetornoPartido | src/main/java/co/javeriana/DurableQueue.java:32 | as written, the item "a\rb" comes back from snapshot as two items |
| Queue.EscribirTerminado | src/main/java/co/javeriana/DurableQueue.java:76-78 | lines written one per line leave the file empty or ending with a line terminator |
| Queue.EscriturasTerminadas | src/main/java/co/javeriana/DurableQueue.java:30-88 | the queue's own writes, an append or a rewrite, keep the file empty or ending with a line terminator, which EncolarLuegoSnapshot requires |
| Queue.EncolarLuegoSnapshot | src/main/java/co/javeriana/DurableQueue.java:30-44 | after enqueue, the snapshot is the earlier items followed by the item, trimmed, unless blank |
| Queue.RestantesMasAceptados | src/main/java/co/javeriana/DurableQueue.java:60-70 | every processed item is kept or accepted, never both (as multisets) |
| Queue.RestantesRechazados | src/main/java/co/javeriana/DurableQueue.java:60-70 | a kept item is one the processor did not answer TRUE at its position |
| Queue.RestantesExtremos | src/main/java/co/javeriana/DurableQueue.java:60-70 | a processor accepting nothing keeps all items; one accepting everything keeps none |
| Queue.RestantesLimpios | src/main/java/co/javeriana/DurableQueue.java:60-70 | the kept items are still clean lines |
| Queue.ProcesarLuegoSnapshot | src/main/java/co/javeriana/DurableQueue.java:56-81 | after a processAll whose rewrite succeeded, the next snapshot is exactly the items not accepted |
| Queue.DurableQueue.constructor | src/main/java/co/javeriana/DurableQueue.java:20-28 | an existing file keeps its text |
| Queue.DurableQueue.Enqueue | src/main/java/co/javeriana/DurableQueue.java:30-37 | one flattened line is appended at the end of the file, which stays empty or line-terminated |
| Queue.DurableQueue.Snapshot | src/main/java/co/javeriana/DurableQueue.java:39-49 | the lines in order, trimmed, blanks dropped; every item clean; the file unchanged |
| Queue.DurableQueue.ProcessAll | src/main/java/co/javeriana/DurableQueue.java:56-95 | nothing when the snapshot is empty or both rewrites fail; otherwise the file holds the items not accepted, in order; a line-terminated file stays so |
| Prestamos.Siguiente | src/main/java/co/javeriana/ActorPrestamo.java:64-65 | `+ 1` on a long stays in range and is exact below LONG_MAX |
| Prestamos.Lamport | src/main/java/co/javeriana/ActorPrestamo.java:63-65 | the clock after a request stays a long |
| Prestamos.LamportAvanza | src/main/java/co/javeriana/ActorPrestamo.java:63-65 | away from LONG_MAX the clock passes its old value and the request's stamp, and steps by one without a stamp |
| Prestamos.LamportDesborda | src/main/java/co/javeriana/ActorPrestamo.java:64 | a request stamped LONG_MAX wraps the clock to LONG_MIN |
| Prestamos.Solicitud | src/main/java/co/javeriana/ActorPrestamo.java:69-74 | the request is complete exactly when all four fields are present, and then it holds their values |
| Prestamos.ErrorLlevaTs | src/main/java/co/javeriana/ActorPrestamo.java:75 | extractTs on an ERROR reply gives back the clock it was written with |
| Prestamos.OkLlevaTs | src/main/java/co/javeriana/ActorPrestamo.java:87 | extractTs on an OK reply gives back the clock |
| Prestamos.RespuestaLlevaTs | src/main/java/co/javeriana/ActorPrestamo.java:74-95 | every reply the actor sends carries its clock |
| Prestamos.OkLlevaId | src/main/java/co/javeriana/ActorPrestamo.java:87 | parseKeyValues on an OK reply gives back the loan id |
| Prestamos.SolicitudDePeticion | src/main/java/co/javeriana/ActorPrestamo.java:67-72 | a PRESTAMO request with readable fields is read back field for field |
| Prestamos.PeticionLlevaTs | src/main/java/co/javeriana/ActorPrestamo.java:63 | extractTs on a stamped request gives the stamp |
| Prestamos.ParseKeyValuesPropio | src/main/java/co/javeriana/ActorPrestamo.java:101-114 | the private parser computes the same map as Utils.parseKeyValues on every message |
| Prestamos.Precargar | src/main/java/co/javeriana/ActorPrestamo.java:47-48 | an empty book repository ends with L1 (2 copies) and L2 (1 copy) |
| Prestamos.MotorPrecargado | src/main/java/co/javeriana/ActorPrestamo.java:34-48 | the primary engine is available, holds L1 and L2 and no loan |
| Prestamos.MotorVacio | src/main/java/co/javeriana/ActorPrestamo.java:38-40 | the replica engine is available, empty, and shares nothing with the primary |
| Prestamos.Iniciar | src/main/java/co/javeriana/ActorPrestamo.java:24-55 | the manager serves from the primary (L1, L2) with an empty replica and lane; the disk is resynchronised |
| Prestamos.AtendidoDeOtorgado | src/main/java/co/javeriana/ActorPrestamo.java:82-89 | the composite's grant raises exactly when the engine is unavailable, is null exactly when nothing is granted, and otherwise carries the drawn id |
| Prestamos.Pedir | src/main/java/co/javeriana/ActorPrestamo.java:82 | the serving engine's grant, the other engine untouched, the files untouched, neither engine switched on or off |
| Prestamos.FallarAReplica | src/main/java/co/javeriana/ActorPrestamo.java:93 | failover resynchronises the disk and switches the flag; tables and lane stay |
| Prestamos.Procesar | src/main/java/co/javeriana/ActorPrestamo.java:80-96 | OK with the id, SinDisponibilidad, or GA_NoDisponible with failover, as the serving engine answers; neither engine switched on or off |
| Prestamos.Solicitar | src/main/java/co/javeriana/ActorPrestamo.java:69-96 | FormatoIncorrecto and no change for an incomplete request; otherwise Procesar |
| Prestamos.Atender | src/main/java/co/javeriana/ActorPrestamo.java:58-96 | one turn: the clock moves first, then the reply and the new state are Turno's for the parsed fields |
| Carga.ClasificarPorPrefijo | src/main/java/co/javeriana/GestorCarga.java:53-59 | Devolucion exactly for DEVOLUCION-prefixed payloads, Renovacion exactly for RENOVACION-prefixed ones, nothing otherwise |
| Carga.PrestamoNoReconocido | src/main/java/co/javeriana/GestorCarga.java:53-59 | a PRESTAMO payload is not recognised |
| Carga.Cargas | src/main/java/co/javeriana/GestorCarga.java:45-48 | null receptions are skipped |
| Carga.Reconocidas | src/main/java/co/javeriana/GestorCarga.java:53-55 | every payload kept has a topic |
| Carga.Frames | src/main/java/co/javeriana/GestorCarga.java:65-66 | one (topic, payload) frame pair per recognised payload, in order |
| Carga.UnaRespuestaPorCarga | src/main/java/co/javeriana/GestorCarga.java:44-69 | exactly one reply per delivered payload, in order, ACK or NACK by classification |
| Carga.PublicaLoReconocido | src/main/java/co/javeriana/GestorCarga.java:44-69 | exactly the recognised payloads are published, in order, under their topic |
| Carga.AckAntesDePublicar | src/main/java/co/javeriana/GestorCarga.java:61-66 | every publication immediately follows an ACK |
| Carga.GestorCarga.constructor | src/main/java/co/javeriana/GestorCarga.java:16-18 | no socket yet, nothing sent |
| Carga.GestorCarga.IniciarRep | src/main/java/co/javeriana/GestorCarga.java:21-28 | the REP socket is bound |
| Carga.GestorCarga.IniciarPub | src/main/java/co/javeriana/GestorCarga.java:31-36 | the PUB socket is bound |
| Carga.GestorCarga.Despachar | src/main/java/co/javeriana/GestorCarga.java:50-66 | one payload: NACK, or ACK then the publication |
| Carga.GestorCarga.RunLoop | src/main/java/co/javeriana/GestorCarga.java:39-69 | raises and sends nothing when a socket is missing; otherwise the trace grows by the events of every delivered payload |

## Left out

- ZeroMQ sockets and message bytes are left out. Replies and publications are events in a trace, and received messages are a finite sequence.
- The actors' endless `while` loops are left out. `Prestamos.Atender` is one turn, and `Carga.GestorCarga.RunLoop` runs over the messages received before interruption.
- Logging to standard output and standard error is left out.
- `GestorCarga.close` and the `main` methods' argument handling are left out (I/O only).
- `GestorAlmacenamientoConReplica.shutdown` is left out.
- `synchronized`, `volatile` and the executor thread's concurrency with the callers are left out. The lane is a FIFO sequence, and `Replicar` is an executor step that can be interleaved with the calls in any order.
- The file-based repositories and their JSON persistence are not part of this model. The engines work on the in-memory repositories. The disk that `syncReplicaFromPrimary` copies is a separate map from path to contents, so the resynchronisation does not change an engine's tables.
- `UUID.randomUUID()` is an `id` parameter of every grant. Its freshness is not assumed, and a collision replaces the loan filed under that id, as a map put would.
- Failures of the file system (creating the directory, taking a lock, copying or moving) are boolean or set parameters. The move fallback at ReplicaManager.java lines 106-109 is one successful move.
- `File.separator` is "/" and `System.lineSeparator()` is "\n".
- Java strings are sequences of Dafny chars. Character comparison agrees with Java's UTF-16 code units on the Basic Multilingual Plane only.
- Prestamos.Iniciar: the code builds the manager (and its first resynchronisation) before preloading L1 and L2. The model preloads first, because the disk and the tables do not interact in the model. It does not state that the engines' objects are freshly allocated, only that the manager and the composite are. The fixed starting tables are not related to the arbitrary `disco` it resynchronises: in the code the tables would be loaded from those files.
- Prestamos.Precargar: requires an empty book repository, which is what a new in-memory repository is. The "save only if missing" checks are modelled, but never skip.
- Prestamos.MotorVacio: in the code both engines are built over file-based repositories, whose constructors load data/primaria/*.db and data/replica/*.db (FileBasedLibroRepository is not part of this model). On a restart the engines therefore start from those files, and the "if missing" preload may skip. The model covers only a first run with no data files: the replica engine starts empty and the primary holds just the preload.
- Prestamos.Atender: it reads the fields with `Pares`, the function that `Utils.ParseKeyValues` is proved to compute, instead of calling that method.
- Prestamos.Pedir: on the primary path it states that the lane grows by exactly one replay, keeping the earlier ones, but not which replay. `Replication.GestorAlmacenamientoConReplica.OtorgarPrestamo` states which.
- Prestamos.Procesar: the lane is described by length and prefix only, as for Pedir.
- Prestamos.Solicitar: the lane is described by length and prefix only, as for Pedir.
- Queue.DurableQueue.constructor: the parent directory and the empty file are the caller's `existente` text. A failure to create them is not modelled.
- Queue.DurableQueue.Enqueue: an IOException while appending is not modelled. The item is flattened by the corrected `AplanarLinea` (see Findings).
- Queue.DurableQueue.Snapshot: an IOException while reading, which would answer an empty list, is not modelled.
- Queue.DurableQueue.ProcessAll: the processor is a function of the position and the item, so it cannot change state between calls. An exception is its `Excepcion` answer.
- StorageProps.EjecutarSana: a book's `ejemplaresDisponibles` and a loan's `renovaciones` are unbounded integers, so Java's 32-bit `int` wrap is not modelled. A book holding 2147483647 copies that gains one in `registrarDevolucion` (GestorAlmacenamiento.java:33) would hold -2147483648 in Java but 2147483648 here. The non-negativity that `EjecutarSana`, `AplicarSana` and `EjecutarCuenta` state over runs therefore holds only without that overflow.
- Storage.GestorAlmacenamiento.ReponerLibro: adds one copy with no 32-bit wrap, as for EjecutarSana.
- ReplicaManagement.Paso: a lock failure leaves the disk unchanged. In Java, `new RandomAccessFile(lock, "rw")` creates a lock file before `lock()` can fail (ReplicaManager.java:93 and 97), so a failed second lock leaves the first lock file, or both, on disk. That partial effect is dropped. The lock files hold no data and are never read.
- Text.ParseLong: accepts only the ASCII digits '0' to '9'. Java's `Long.parseLong` reads digits through `Character.digit`, which also accepts other Unicode decimal digits such as U+0663, so the model rejects some strings that Java parses.
- Utils.ExtractTs: inherits that restriction. A request carrying `ts=` followed by U+0663 gets no stamp here, while Java reads 3 and moves the actor's clock to max(lamport, 3) + 1.
- Text.ParseLong: states the shape of an accepted string and the range, and is paired with Text.FormatThenParseLong. It does not state outright which strings are rejected.
- ActorDevolucion, ActorRenovacion, PS and Mensaje are not part of this model.

## Findings

| source | as written | input that shows it | evidently intended | confidence | as-written member | corrected member |
|---|---|---|---|---|---|---|
| src/main/java/co/javeriana/DurableQueue.java:32 | `replaceAll("\r?\n", " ")` flattens "\r\n" and "\n" but keeps a lone '\r', which `Files.readAllLines` treats as a line terminator | enqueue("a\rb") on an empty file; snapshot returns ["a", "b"] | every item is written on one line and read back as one item | not executed | Queue.EncolarRetornoPartido | Queue.EncolarLuegoSnapshot |
