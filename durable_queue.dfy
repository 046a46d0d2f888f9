/**
 * DurableQueue: a persistent queue kept as a text file, one item per line. `enqueue`
 * appends a line; `snapshot` reads the lines back trimmed, without the blank ones;
 * `processAll` hands every item to a processor and rewrites the file with the items
 * the processor did not accept.
 *
 * The file is its text. Reading it splits at every line terminator as
 * Files.readAllLines does ("\r\n", "\r" or "\n"); writing ends each line with "\n".
 */
module Queue {
  import opened Text

  // ---------------------------------------------------------------- lines

  predicate EsFinDeLinea(c: char) { c == '\r' || c == '\n' }

  /** A string that holds no line terminator. */
  predicate SinFinDeLinea(s: string) { '\r' !in s && '\n' !in s }

  /** The position of the first line terminator of `s`, or |s| when there is none. */
  function FinDeLinea(s: string): (i: nat)
    ensures i <= |s| && SinFinDeLinea(s[..i])
    ensures i < |s| ==> EsFinDeLinea(s[i])
  {
    if s == [] || EsFinDeLinea(s[0]) then 0
    else
      var k := FinDeLinea(s[1..]);
      assert s[..k + 1] == [s[0]] + s[1..][..k];
      k + 1
  }

  /** What follows the terminator at `i`: "\r\n" is one terminator, any other '\r' or '\n' is one. */
  function TrasFin(s: string, i: nat): (r: string)
    requires i < |s|
    ensures |r| < |s|
  {
    if s[i] == '\r' && i + 1 < |s| && s[i + 1] == '\n' then s[i + 2..] else s[i + 1..]
  }

  /** Files.readAllLines: the lines of `s`, without terminators; a final terminator opens no empty line. */
  function LeerLineas(s: string): seq<string>
    decreases |s|
  {
    if s == [] then []
    else
      var i := FinDeLinea(s);
      if i == |s| then [s] else [s[..i]] + LeerLineas(TrasFin(s, i))
  }

  /** No line read holds a terminator. */
  lemma {:induction false} LeerLineasSinFin(s: string)
    ensures forall k :: 0 <= k < |LeerLineas(s)| ==> SinFinDeLinea(LeerLineas(s)[k])
    decreases |s|
  {
    if s != [] {
      var i := FinDeLinea(s);
      if i < |s| {
        LeerLineasSinFin(TrasFin(s, i));
      }
    }
  }

  /** The text of a file holding `ls`, each line followed by the line separator. */
  function Escribir(ls: seq<string>): string
  {
    if ls == [] then "" else ls[0] + "\n" + Escribir(ls[1..])
  }

  /** The first terminator of `l + t` is the one `t` starts with, when `l` has none. */
  lemma {:induction false} FinDeLineaTras(l: string, t: string)
    requires SinFinDeLinea(l) && t != [] && EsFinDeLinea(t[0])
    ensures FinDeLinea(l + t) == |l|
  {
    if l != [] {
      assert (l + t)[1..] == l[1..] + t;
      assert l[0] in l;
      FinDeLineaTras(l[1..], t);
    }
  }

  /** Lines without terminators are read back exactly as they were written. */
  lemma {:induction false} LeerEscribir(ls: seq<string>)
    requires forall k :: 0 <= k < |ls| ==> SinFinDeLinea(ls[k])
    ensures LeerLineas(Escribir(ls)) == ls
  {
    if ls != [] {
      var l := ls[0];
      var resto := Escribir(ls[1..]);
      var s := Escribir(ls);
      assert s == l + ("\n" + resto);
      FinDeLineaTras(l, "\n" + resto);
      assert s[..|l|] == l && s[|l|] == '\n';
      assert TrasFin(s, |l|) == resto;
      LeerEscribir(ls[1..]);
    }
  }

  /** A first line that ends inside `c` ends at the same place in `c + t`. */
  lemma {:induction false} FinDeLineaPrefijo(c: string, t: string)
    requires FinDeLinea(c) < |c|
    ensures FinDeLinea(c + t) == FinDeLinea(c)
  {
    if !EsFinDeLinea(c[0]) {
      assert (c + t)[1..] == c[1..] + t;
      FinDeLineaPrefijo(c[1..], t);
    }
  }

  /** Text that ends with "\n" has a terminator, and appending to it moves neither its first line nor what follows it. */
  lemma PrimeraLineaConcat(c: string, t: string)
    requires c != [] && c[|c| - 1] == '\n'
    ensures FinDeLinea(c) < |c|
    ensures var i := FinDeLinea(c);
            && FinDeLinea(c + t) == i && (c + t)[..i] == c[..i]
            && TrasFin(c + t, i) == TrasFin(c, i) + t
            && (TrasFin(c, i) == [] || TrasFin(c, i)[|TrasFin(c, i)| - 1] == '\n')
  {
    var i := FinDeLinea(c);
    assert c[|c| - 1] in c;
    FinDeLineaPrefijo(c, t);
  }

  /** Text whose first line ends with a terminator is read as that line and then the lines after it. */
  lemma LeerPrimeraLinea(s: string)
    requires FinDeLinea(s) < |s|
    ensures LeerLineas(s) == [s[..FinDeLinea(s)]] + LeerLineas(TrasFin(s, FinDeLinea(s)))
  {
  }

  /** Text that ends with "\n" is read as its own lines followed by those of whatever comes after it. */
  lemma {:induction false} LeerLineasConcat(c: string, t: string)
    requires c == [] || c[|c| - 1] == '\n'
    ensures LeerLineas(c + t) == LeerLineas(c) + LeerLineas(t)
    decreases |c|
  {
    if c != [] {
      PrimeraLineaConcat(c, t);
      var i := FinDeLinea(c);
      var r := TrasFin(c, i);
      LeerPrimeraLinea(c);
      LeerPrimeraLinea(c + t);
      LeerLineasConcat(r, t);
      assert LeerLineas(c + t) == [c[..i]] + (LeerLineas(r) + LeerLineas(t));
    } else {
      assert c + t == t;
    }
  }

  // ---------------------------------------------------------------- snapshot

  /** A line as snapshot returns it: not blank, trimmed, and holding no terminator. */
  predicate Limpio(l: string)
  {
    l != [] && Trimmed(l) && SinFinDeLinea(l)
  }

  /** The lines, in order, each trimmed, the blank ones dropped. */
  function Limpiar(ls: seq<string>): seq<string>
  {
    if ls == [] then []
    else
      var t := Trim(ls[0]);
      (if t == [] then [] else [t]) + Limpiar(ls[1..])
  }

  /** The items snapshot returns for a file holding `contenido`. */
  function SnapshotDe(contenido: string): seq<string>
  {
    Limpiar(LeerLineas(contenido))
  }

  /** Cleaning keeps the order and cleans each line on its own, so it distributes over concatenation. */
  lemma {:induction false} LimpiarConcat(a: seq<string>, b: seq<string>)
    ensures Limpiar(a + b) == Limpiar(a) + Limpiar(b)
  {
    if a == [] {
      assert a + b == b;
    } else {
      assert (a + b)[0] == a[0] && (a + b)[1..] == a[1..] + b;
      LimpiarConcat(a[1..], b);
    }
  }

  /** Every item of a snapshot is a clean line. */
  lemma {:induction false} LimpiarDaLimpios(ls: seq<string>)
    requires forall k :: 0 <= k < |ls| ==> SinFinDeLinea(ls[k])
    ensures forall k :: 0 <= k < |Limpiar(ls)| ==> Limpio(Limpiar(ls)[k])
  {
    if ls != [] {
      LimpiarDaLimpios(ls[1..]);
      TrimKeepsOut(ls[0], '\r');
      TrimKeepsOut(ls[0], '\n');
    }
  }

  /** Clean lines are left as they are. */
  lemma {:induction false} LimpiarLimpios(ls: seq<string>)
    requires forall k :: 0 <= k < |ls| ==> Limpio(ls[k])
    ensures Limpiar(ls) == ls
  {
    if ls != [] {
      LimpiarLimpios(ls[1..]);
      TrimOfTrimmed(ls[0]);
    }
  }

  /** Reading what snapshot returned, written one per line, gives the same items. */
  lemma SnapshotDeEscribir(ls: seq<string>)
    requires forall k :: 0 <= k < |ls| ==> Limpio(ls[k])
    ensures SnapshotDe(Escribir(ls)) == ls
  {
    LeerEscribir(ls);
    LimpiarLimpios(ls);
  }

  // ---------------------------------------------------------------- enqueue

  /** `item.replaceAll("\r?\n", " ")`: each "\r\n" and each '\n' becomes a space; a lone '\r' stays. */
  function ReemplazarSaltos(item: string): (r: string)
    ensures '\n' !in r
  {
    if item == [] then []
    else if item[0] == '\r' && |item| >= 2 && item[1] == '\n' then " " + ReemplazarSaltos(item[2..])
    else if item[0] == '\n' then " " + ReemplazarSaltos(item[1..])
    else [item[0]] + ReemplazarSaltos(item[1..])
  }

  /**
   * The item enqueue writes, as intended: every line terminator ("\r\n", '\r' or '\n')
   * becomes a space, so the item stays on one line.
   */
  function AplanarLinea(item: string): (r: string)
    ensures SinFinDeLinea(r)
  {
    if item == [] then []
    else if item[0] == '\r' && |item| >= 2 && item[1] == '\n' then " " + AplanarLinea(item[2..])
    else if EsFinDeLinea(item[0]) then " " + AplanarLinea(item[1..])
    else [item[0]] + AplanarLinea(item[1..])
  }

  /** The two agree on every item without a lone '\r'. */
  lemma {:induction false} AplanarSinRetorno(item: string)
    requires '\r' !in item
    ensures AplanarLinea(item) == ReemplazarSaltos(item)
  {
    if item != [] {
      assert item[0] in item;
      assert '\r' !in item[1..];
      AplanarSinRetorno(item[1..]);
    }
  }

  /** As written, an item holding a lone '\r' comes back from snapshot as two items. */
  lemma EncolarRetornoPartido()
    ensures SnapshotDe("" + ReemplazarSaltos("a\rb") + "\n") == ["a", "b"]
  {
    var s := "a\rb\n";
    assert ReemplazarSaltos("b") == "b";
    assert ReemplazarSaltos("\rb") == "\rb";
    assert "" + ReemplazarSaltos("a\rb") + "\n" == s;
    assert FinDeLinea("\n") == 0;
    assert FinDeLinea("b\n") == 1;
    assert FinDeLinea(s) == 1;
    assert TrasFin(s, 1) == "b\n";
    assert TrasFin("b\n", 1) == "";
    assert "b\n"[..1] == "b" && s[..1] == "a";
    assert LeerLineas("") == [];
    assert LeerLineas("b\n") == ["b"];
    assert LeerLineas(s) == ["a", "b"];
    assert Trim("a") == "a" && Trim("b") == "b";
    assert ["a", "b"][1..] == ["b"];
    assert Limpiar(["b"]) == ["b"];
  }

  /** The file is empty or its last line is terminated: an append then starts a line of its own. */
  predicate Terminado(contenido: string)
  {
    contenido == [] || contenido[|contenido| - 1] == '\n'
  }

  /** Lines written one per line leave the file terminated. */
  lemma {:induction false} EscribirTerminado(ls: seq<string>)
    ensures Terminado(Escribir(ls))
    decreases |ls|
  {
    if ls != [] {
      EscribirTerminado(ls[1..]);
    }
  }

  /**
   * The queue's own writes keep the file terminated: an enqueue appends a terminated line,
   * and a processAll either leaves the file alone or rewrites it one item per line.
   */
  lemma EscriturasTerminadas(contenido: string, item: string, restantes: seq<string>)
    ensures Terminado(contenido + AplanarLinea(item) + "\n")
    ensures Terminado(Escribir(restantes))
  {
    EscribirTerminado(restantes);
  }

  /** After enqueueing, a snapshot holds the earlier items and then the item, trimmed, unless it is blank. */
  lemma EncolarLuegoSnapshot(contenido: string, item: string)
    requires Terminado(contenido)
    ensures SnapshotDe(contenido + AplanarLinea(item) + "\n") == SnapshotDe(contenido) + Limpiar([AplanarLinea(item)])
  {
    var l := AplanarLinea(item);
    assert contenido + l + "\n" == contenido + Escribir([l]);
    LeerLineasConcat(contenido, Escribir([l]));
    LeerEscribir([l]);
    LimpiarConcat(LeerLineas(contenido), [l]);
  }

  // ---------------------------------------------------------------- processAll

  /** What one processor call gives back: TRUE, FALSE, null, or an exception. */
  datatype Respuesta = Verdadero | Falso | Nulo | Excepcion

  /** `Boolean.TRUE.equals(...)`: only TRUE accepts the item; an exception counts as not accepted. */
  predicate Acepta(r: Respuesta) { r == Verdadero }

  /** The first `n` items that the processor (called with each position and item) did not accept, in order. */
  function Restantes(items: seq<string>, procesador: (nat, string) -> Respuesta, n: nat): seq<string>
    requires n <= |items|
  {
    if n == 0 then []
    else Restantes(items, procesador, n - 1) + (if Acepta(procesador(n - 1, items[n - 1])) then [] else [items[n - 1]])
  }

  /** The first `n` items that the processor accepted, in order. */
  function Aceptados(items: seq<string>, procesador: (nat, string) -> Respuesta, n: nat): seq<string>
    requires n <= |items|
  {
    if n == 0 then []
    else Aceptados(items, procesador, n - 1) + (if Acepta(procesador(n - 1, items[n - 1])) then [items[n - 1]] else [])
  }

  /** Every item processed is either kept or accepted, never both and never neither. */
  lemma {:induction false} RestantesMasAceptados(items: seq<string>, procesador: (nat, string) -> Respuesta, n: nat)
    requires n <= |items|
    ensures multiset(Restantes(items, procesador, n)) + multiset(Aceptados(items, procesador, n)) == multiset(items[..n])
  {
    if n > 0 {
      RestantesMasAceptados(items, procesador, n - 1);
      assert items[..n] == items[..n - 1] + [items[n - 1]];
    }
  }

  /** A kept item is an item the processor did not accept at its position. */
  lemma {:induction false} RestantesRechazados(items: seq<string>, procesador: (nat, string) -> Respuesta, n: nat, x: string)
    requires n <= |items| && x in Restantes(items, procesador, n)
    ensures exists j :: 0 <= j < n && items[j] == x && !Acepta(procesador(j, items[j]))
  {
    if x !in Restantes(items, procesador, n - 1) {
      assert items[n - 1] == x && !Acepta(procesador(n - 1, items[n - 1]));
    } else {
      RestantesRechazados(items, procesador, n - 1, x);
    }
  }

  /** A processor that accepts nothing keeps every item; one that accepts everything keeps none. */
  lemma {:induction false} RestantesExtremos(items: seq<string>, procesador: (nat, string) -> Respuesta, n: nat)
    requires n <= |items|
    ensures (forall j :: 0 <= j < n ==> !Acepta(procesador(j, items[j]))) ==> Restantes(items, procesador, n) == items[..n]
    ensures (forall j :: 0 <= j < n ==> Acepta(procesador(j, items[j]))) ==> Restantes(items, procesador, n) == []
  {
    if n > 0 {
      RestantesExtremos(items, procesador, n - 1);
      assert items[..n] == items[..n - 1] + [items[n - 1]];
    }
  }

  /** Clean items stay clean when some are dropped. */
  lemma RestantesLimpios(items: seq<string>, procesador: (nat, string) -> Respuesta)
    requires forall k :: 0 <= k < |items| ==> Limpio(items[k])
    ensures forall k :: 0 <= k < |Restantes(items, procesador, |items|)| ==> Limpio(Restantes(items, procesador, |items|)[k])
  {
    var r := Restantes(items, procesador, |items|);
    forall k | 0 <= k < |r| ensures Limpio(r[k]) {
      RestantesRechazados(items, procesador, |items|, r[k]);
    }
  }

  /**
   * After a processAll whose rewrite succeeded, the next snapshot is exactly the items
   * the processor did not accept: an accepted item is never seen again.
   */
  lemma ProcesarLuegoSnapshot(contenido: string, procesador: (nat, string) -> Respuesta)
    ensures var items := SnapshotDe(contenido);
            SnapshotDe(Escribir(Restantes(items, procesador, |items|))) == Restantes(items, procesador, |items|)
  {
    var items := SnapshotDe(contenido);
    LeerLineasSinFin(contenido);
    LimpiarDaLimpios(LeerLineas(contenido));
    RestantesLimpios(items, procesador);
    SnapshotDeEscribir(Restantes(items, procesador, |items|));
  }

  class DurableQueue {
    /** The text of the queue's file. */
    var contenido: string

    /** The file is created empty when missing; an existing file keeps its text. */
    constructor (existente: string)
      ensures contenido == existente
    {
      contenido := existente;
    }

    /** enqueue: one line appended at the end of the file, the item flattened onto it. */
    method Enqueue(item: string)
      modifies this
      ensures contenido == old(contenido) + AplanarLinea(item) + "\n"
      ensures Terminado(contenido)
    {
      contenido := contenido + AplanarLinea(item) + "\n";
      EscriturasTerminadas(old(contenido), item, []);
    }

    /** snapshot: the file's lines, in order, trimmed, the blank ones dropped; the file is not changed. */
    method Snapshot() returns (items: seq<string>)
      ensures items == SnapshotDe(contenido)
      ensures forall k :: 0 <= k < |items| ==> Limpio(items[k])
    {
      var lineas := LeerLineas(contenido);
      items := [];
      var i := 0;
      while i < |lineas|
        invariant 0 <= i <= |lineas|
        invariant items == Limpiar(lineas[..i])
      {
        var t := Trim(lineas[i]);
        assert lineas[..i + 1] == lineas[..i] + [lineas[i]];
        LimpiarConcat(lineas[..i], [lineas[i]]);
        assert Limpiar([lineas[i]]) == if t == [] then [] else [t];
        if t != [] {
          items := items + [t];
        }
        i := i + 1;
      }
      assert lineas[..i] == lineas;
      LeerLineasSinFin(contenido);
      LimpiarDaLimpios(lineas);
    }

    /**
     * processAll: nothing happens when the snapshot is empty; otherwise every item goes to
     * the processor once, in order, and the file is rewritten with the items it did not
     * accept, unless both the atomic and the plain rewrite fail (`reescrituraFalla`).
     */
    method ProcessAll(procesador: (nat, string) -> Respuesta, reescrituraFalla: bool)
      modifies this
      ensures var items := SnapshotDe(old(contenido));
              contenido == if items == [] || reescrituraFalla then old(contenido)
                           else Escribir(Restantes(items, procesador, |items|))
      ensures Terminado(old(contenido)) ==> Terminado(contenido)
    {
      var items := Snapshot();
      if items == [] {
        return;
      }
      var restantes := [];
      var i := 0;
      while i < |items|
        invariant 0 <= i <= |items|
        invariant restantes == Restantes(items, procesador, i)
      {
        var ok := Acepta(procesador(i, items[i]));
        if !ok {
          restantes := restantes + [items[i]];
        }
        i := i + 1;
      }
      if !reescrituraFalla {
        contenido := Escribir(restantes);
        EscribirTerminado(restantes);
      }
    }
  }
}
