/**
 * Utils: reading the `key=value` fields of a message such as
 * "PRESTAMO;usuarioId=U1;libroCodigo=L1;ts=7". The first ';'-separated piece is the
 * operation and is skipped; every later piece holding '=' after its first character
 * contributes its trimmed key and trimmed value, a later piece overwriting an earlier
 * one with the same key. extractTs reads the Lamport time stamp from the `ts` field.
 */
module Utils {
  import opened Wrappers
  import opened Text

  /** The key and value one piece contributes: nothing unless its first '=' comes after position 0. */
  function Entrada(part: string): Option<(string, string)>
  {
    var eq := IndexOf(part, '=');
    if eq > 0 then Some((Trim(part[..eq]), Trim(part[eq + 1..]))) else None
  }

  /** `map.put(k, v)` for the entry the piece contributes, if any. */
  function Poner(m: map<string, string>, part: string): map<string, string>
  {
    match Entrada(part)
    case Some(kv) => m[kv.0 := kv.1]
    case None => m
  }

  /** The map after the pieces are put into `m` one by one, first to last. */
  function Agregar(m: map<string, string>, parts: seq<string>): map<string, string>
    decreases |parts|
  {
    if parts == [] then m else Agregar(Poner(m, parts[0]), parts[1..])
  }

  /**
   * parseKeyValues: the empty map for null; otherwise the entries of every piece of
   * `split(";")` after the first.
   */
  function Pares(carga: Option<string>): map<string, string>
  {
    if carga.None? then map[]
    else
      var parts := Split(carga.value, ';');
      if parts == [] then map[] else Agregar(map[], parts[1..])
  }

  /** `map.get(k)`: the value under `k`, or null. */
  function Valor(m: map<string, string>, k: string): Option<string>
  {
    if k in m then Some(m[k]) else None
  }

  /** The piece contributes an entry whose key is `k`. */
  predicate Nombra(part: string, k: string)
  {
    Entrada(part).Some? && Entrada(part).value.0 == k
  }

  /** The position of the last piece naming `k`, or -1 when none does. */
  function UltimoIndice(parts: seq<string>, k: string): (r: int)
    ensures -1 <= r < |parts|
    ensures r == -1 <==> forall j :: 0 <= j < |parts| ==> !Nombra(parts[j], k)
    ensures r >= 0 ==> Nombra(parts[r], k) && forall j :: r < j < |parts| ==> !Nombra(parts[j], k)
  {
    if parts == [] then -1
    else
      var r := UltimoIndice(parts[1..], k);
      assert forall j :: 1 <= j < |parts| ==> parts[j] == parts[1..][j - 1];
      if r >= 0 then r + 1 else if Nombra(parts[0], k) then 0 else -1
  }

  /**
   * Putting the pieces one after the other leaves under `k` the value of the last piece
   * naming `k`, and what `m` held under `k` when no piece names it.
   */
  lemma {:induction false} AgregarUltimo(m: map<string, string>, parts: seq<string>, k: string)
    ensures var j := UltimoIndice(parts, k);
            Valor(Agregar(m, parts), k) == if j < 0 then Valor(m, k) else Some(Entrada(parts[j]).value.1)
    decreases |parts|
  {
    if parts != [] {
      AgregarUltimo(Poner(m, parts[0]), parts[1..], k);
      var r := UltimoIndice(parts[1..], k);
      if r >= 0 {
        assert parts[1..][r] == parts[r + 1];
      }
    }
  }

  /** The loop of parseKeyValues, from the second piece on, proved to compute Pares. */
  method ParseKeyValues(carga: Option<string>) returns (m: map<string, string>)
    ensures m == Pares(carga)
  {
    m := map[];
    if carga.None? {
      return;
    }
    var parts := Split(carga.value, ';');
    var i := 1;
    while i < |parts|
      invariant parts == [] ==> m == map[]
      invariant parts != [] ==> 1 <= i <= |parts| && Agregar(m, parts[i..]) == Agregar(map[], parts[1..])
    {
      var part := parts[i];
      assert parts[i..][1..] == parts[i + 1..];
      var eq := IndexOf(part, '=');
      if eq > 0 {
        var k := Trim(part[..eq]);
        var v := Trim(part[eq + 1..]);
        m := m[k := v];
      }
      i := i + 1;
    }
    assert parts != [] ==> parts[i..] == [];
  }

  // ---------------------------------------------------------------- writing messages

  /** A field that reads back as written: a non-empty trimmed key without '=' or ';', a trimmed value without ';'. */
  predicate Campo(kv: (string, string))
  {
    && kv.0 != [] && '=' !in kv.0 && ';' !in kv.0 && Trimmed(kv.0)
    && ';' !in kv.1 && Trimmed(kv.1)
  }

  /** The pieces `key=value` of the fields. */
  function Piezas(ps: seq<(string, string)>): (r: seq<string>)
    ensures |r| == |ps|
    ensures forall i :: 0 <= i < |ps| ==> r[i] == ps[i].0 + "=" + ps[i].1
  {
    if ps == [] then [] else [ps[0].0 + "=" + ps[0].1] + Piezas(ps[1..])
  }

  /** A message as the components build it: the operation, then `;key=value` for each field. */
  function Formatear(op: string, ps: seq<(string, string)>): string
  {
    JoinWith([op] + Piezas(ps), ';')
  }

  /** The map the fields give when put first to last. */
  function Cargar(m: map<string, string>, ps: seq<(string, string)>): map<string, string>
    decreases |ps|
  {
    if ps == [] then m else Cargar(m[ps[0].0 := ps[0].1], ps[1..])
  }

  /** A message with two fields, written out. */
  lemma FormatearDos(op: string, a: (string, string), b: (string, string))
    ensures Formatear(op, [a, b]) == op + ";" + a.0 + "=" + a.1 + ";" + b.0 + "=" + b.1
  {
    var p := Piezas([a, b]);
    assert p == [a.0 + "=" + a.1, b.0 + "=" + b.1];
    var xs := [op] + p;
    assert xs[1..] == p && p[1..] == [b.0 + "=" + b.1];
    assert JoinWith(p, ';') == a.0 + "=" + a.1 + ";" + (b.0 + "=" + b.1);
  }

  /** Putting one field. */
  lemma CargarUno(m: map<string, string>, kv: (string, string))
    ensures Cargar(m, [kv]) == m[kv.0 := kv.1]
  {
    assert [kv][1..] == [];
  }

  /** A well-formed field's piece contributes exactly that field. */
  lemma EntradaDeCampo(kv: (string, string))
    requires Campo(kv)
    ensures Entrada(kv.0 + "=" + kv.1) == Some(kv)
  {
    var part := kv.0 + "=" + kv.1;
    IndexOfConcat(kv.0, '=', kv.1);
    assert part[..|kv.0|] == kv.0;
    assert part[|kv.0| + 1..] == kv.1;
    TrimOfTrimmed(kv.0);
    TrimOfTrimmed(kv.1);
  }

  lemma {:induction false} AgregarPiezas(m: map<string, string>, ps: seq<(string, string)>)
    requires forall i :: 0 <= i < |ps| ==> Campo(ps[i])
    ensures Agregar(m, Piezas(ps)) == Cargar(m, ps)
    decreases |ps|
  {
    if ps != [] {
      EntradaDeCampo(ps[0]);
      assert Piezas(ps)[1..] == Piezas(ps[1..]);
      AgregarPiezas(m[ps[0].0 := ps[0].1], ps[1..]);
    }
  }

  /** Splitting a join of pieces without the separator gives the pieces back. */
  lemma {:induction false} PiecesOfJoin(xs: seq<string>, sep: char)
    requires |xs| >= 1 && forall i :: 0 <= i < |xs| ==> sep !in xs[i]
    ensures Pieces(JoinWith(xs, sep), sep) == xs
  {
    if |xs| == 1 {
      PiecesSingle(xs[0], sep);
    } else {
      PiecesOfJoin(xs[1..], sep);
      PiecesConcat(xs[0], sep, JoinWith(xs[1..], sep));
      assert xs == [xs[0]] + xs[1..];
    }
  }

  lemma PiezaSinSeparador(kv: (string, string))
    requires Campo(kv)
    ensures ';' !in kv.0 + "=" + kv.1
  {
  }

  /** No piece of a message built from well-formed fields holds the separator. */
  lemma PiezasSinSeparador(op: string, ps: seq<(string, string)>)
    requires ';' !in op && forall i :: 0 <= i < |ps| ==> Campo(ps[i])
    ensures forall i :: 0 <= i < |[op] + Piezas(ps)| ==> ';' !in ([op] + Piezas(ps))[i]
  {
    var xs := [op] + Piezas(ps);
    forall i | 0 <= i < |xs| ensures ';' !in xs[i] {
      if i > 0 {
        PiezaSinSeparador(ps[i - 1]);
      }
    }
  }

  /** A message built from well-formed fields is split into the operation and the field pieces. */
  lemma SplitFormatear(op: string, ps: seq<(string, string)>)
    requires ';' !in op && forall i :: 0 <= i < |ps| ==> Campo(ps[i])
    ensures Split(Formatear(op, ps), ';') == [op] + Piezas(ps)
  {
    var xs := [op] + Piezas(ps);
    PiezasSinSeparador(op, ps);
    PiecesOfJoin(xs, ';');
    if ps != [] {
      assert xs[|xs| - 1] != [];
      SplitKeepsLastPiece(Formatear(op, ps), ';');
    }
  }

  /** parseKeyValues reads back the fields of a message built from well-formed fields, later ones winning. */
  lemma ParesDeFormatear(op: string, ps: seq<(string, string)>)
    requires ';' !in op && forall i :: 0 <= i < |ps| ==> Campo(ps[i])
    ensures Pares(Some(Formatear(op, ps))) == Cargar(map[], ps)
  {
    SplitFormatear(op, ps);
    assert ([op] + Piezas(ps))[1..] == Piezas(ps);
    AgregarPiezas(map[], ps);
  }

  // ---------------------------------------------------------------- extractTs

  /** extractTs: the `ts` field parsed as a long; null when absent or not a valid long. */
  function ExtractTs(carga: Option<string>): (r: Option<int>)
    ensures r.Some? ==> "ts" in Pares(carga) && ParseLong(Pares(carga)["ts"]) == r
    ensures r.Some? ==> LONG_MIN <= r.value <= LONG_MAX
    ensures "ts" in Pares(carga) && ParseLong(Pares(carga)["ts"]).Some? ==> r.Some?
  {
    var kv := Pares(carga);
    if "ts" !in kv then None else ParseLong(kv["ts"])
  }

  lemma {:induction false} CargarUltimo(m: map<string, string>, ps: seq<(string, string)>, kv: (string, string))
    ensures Cargar(m, ps + [kv]) == Cargar(m, ps)[kv.0 := kv.1]
    decreases |ps|
  {
    if ps != [] {
      assert (ps + [kv])[1..] == ps[1..] + [kv];
      CargarUltimo(m[ps[0].0 := ps[0].1], ps[1..], kv);
    }
  }

  /** What Long.toString writes is trimmed and free of ';', so it reads back as a field value. */
  lemma LongLegible(n: int)
    ensures Trimmed(FormatLong(n)) && ';' !in FormatLong(n)
  {
    var s := FormatLong(n);
    assert !IsTrimmed(s[0]) && !IsTrimmed(s[|s| - 1]);
    forall i | 0 <= i < |s| ensures s[i] != ';' {
      assert IsDigit(s[i]) || s[i] == '-';
    }
  }

  /** A message whose last field is `ts=<n>`, as Long.toString writes n, yields n. */
  lemma ExtractTsDeFormateado(op: string, ps: seq<(string, string)>, n: int)
    requires ';' !in op && forall i :: 0 <= i < |ps| ==> Campo(ps[i])
    requires LONG_MIN <= n <= LONG_MAX
    ensures ExtractTs(Some(Formatear(op, ps + [("ts", FormatLong(n))]))) == Some(n)
  {
    var s := FormatLong(n);
    LongLegible(n);
    var qs := ps + [("ts", s)];
    assert forall i :: 0 <= i < |qs| ==> Campo(qs[i]);
    ParesDeFormatear(op, qs);
    CargarUltimo(map[], ps, ("ts", s));
    FormatThenParseLong(n);
  }
}
