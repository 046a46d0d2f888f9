/**
 * GestorCarga: the dispatcher between the request front end and the actors. Each payload
 * received on the REP socket is classified by its prefix; DEVOLUCION and RENOVACION are
 * acknowledged with ACK and then published on the PUB socket under the topic Devolucion or
 * Renovacion, and anything else (PRESTAMO included) is answered with a NACK and published
 * nowhere. The traffic on both sockets is one trace of events, in the order they happen.
 */
module Carga {
  import opened Wrappers

  /** The topics the dispatcher publishes under. */
  datatype Topico = Devolucion | Renovacion

  /** The topic frame as it goes on the wire. */
  function NombreTopico(t: Topico): string
  {
    match t
    case Devolucion => "Devolucion"
    case Renovacion => "Renovacion"
  }

  /** What travels on the sockets: a reply on REP, or a (topic, payload) pair on PUB. */
  datatype Evento = Respondido(respuesta: string) | Publicado(topico: string, carga: string)

  const ACK := "ACK"
  const NACK := "NACK:OperacionDesconocida"

  /** `s.startsWith(p)`. */
  predicate EmpiezaCon(s: string, p: string)
  {
    |p| <= |s| && s[..|p|] == p
  }

  /** The prefix chain of runLoop: DEVOLUCION first, then RENOVACION, else unknown. */
  function Clasificar(carga: string): Option<Topico>
  {
    if EmpiezaCon(carga, "DEVOLUCION") then Some(Devolucion)
    else if EmpiezaCon(carga, "RENOVACION") then Some(Renovacion)
    else None
  }

  /**
   * Each topic is chosen exactly when the payload starts with its prefix (the two prefixes
   * exclude each other, so the order of the tests does not matter), and the NACK exactly
   * when it starts with neither.
   */
  lemma ClasificarPorPrefijo(carga: string)
    ensures Clasificar(carga) == Some(Devolucion) <==> EmpiezaCon(carga, "DEVOLUCION")
    ensures Clasificar(carga) == Some(Renovacion) <==> EmpiezaCon(carga, "RENOVACION")
    ensures Clasificar(carga) == None <==> !EmpiezaCon(carga, "DEVOLUCION") && !EmpiezaCon(carga, "RENOVACION")
  {
    if EmpiezaCon(carga, "DEVOLUCION") {
      assert carga[0] == 'D';
    }
  }

  /** A loan request is not something the dispatcher recognises. */
  lemma PrestamoNoReconocido(carga: string)
    requires EmpiezaCon(carga, "PRESTAMO")
    ensures Clasificar(carga) == None
  {
    assert carga[0] == 'P';
  }

  /** The events one non-null payload causes: ACK then the publication, or a NACK alone. */
  function Paso(carga: string): seq<Evento>
  {
    match Clasificar(carga)
    case Some(t) => [Respondido(ACK), Publicado(NombreTopico(t), carga)]
    case None => [Respondido(NACK)]
  }

  /** The payloads actually delivered, in order: `recv` returning null is skipped. */
  function Cargas(recibidos: seq<Option<string>>): (r: seq<string>)
    ensures |r| <= |recibidos|
  {
    if recibidos == [] then []
    else
      var previos := Cargas(recibidos[..|recibidos| - 1]);
      match recibidos[|recibidos| - 1]
      case None => previos
      case Some(c) => previos + [c]
  }

  /** The trace that serving the payloads one after another leaves. */
  function Traza(cargas: seq<string>): seq<Evento>
  {
    if cargas == [] then [] else Traza(cargas[..|cargas| - 1]) + Paso(cargas[|cargas| - 1])
  }

  // ---------------------------------------------------------------- reading a trace

  /** The replies sent on REP, in order. */
  function Respuestas(traza: seq<Evento>): (r: seq<string>)
    ensures |r| <= |traza|
  {
    if traza == [] then []
    else
      var previas := Respuestas(traza[..|traza| - 1]);
      match traza[|traza| - 1]
      case Respondido(s) => previas + [s]
      case Publicado(_, _) => previas
  }

  /** The frames sent on PUB, in order. */
  function Publicaciones(traza: seq<Evento>): (r: seq<(string, string)>)
    ensures |r| <= |traza|
  {
    if traza == [] then []
    else
      var previas := Publicaciones(traza[..|traza| - 1]);
      match traza[|traza| - 1]
      case Respondido(_) => previas
      case Publicado(t, c) => previas + [(t, c)]
  }

  /** The payloads the dispatcher recognises, in order. */
  function Reconocidas(cargas: seq<string>): (r: seq<string>)
    ensures |r| <= |cargas|
    ensures forall i :: 0 <= i < |r| ==> Clasificar(r[i]).Some?
  {
    if cargas == [] then []
    else
      var previas := Reconocidas(cargas[..|cargas| - 1]);
      var c := cargas[|cargas| - 1];
      if Clasificar(c).Some? then previas + [c] else previas
  }

  /** The reply a payload gets. */
  function Respuesta(carga: string): string
  {
    if Clasificar(carga).Some? then ACK else NACK
  }

  lemma RespuestasConcat(a: seq<Evento>, b: seq<Evento>)
    ensures Respuestas(a + b) == Respuestas(a) + Respuestas(b)
    decreases |b|
  {
    if b != [] {
      assert (a + b)[..|a + b| - 1] == a + b[..|b| - 1];
      RespuestasConcat(a, b[..|b| - 1]);
    } else {
      assert a + b == a;
    }
  }

  lemma PublicacionesConcat(a: seq<Evento>, b: seq<Evento>)
    ensures Publicaciones(a + b) == Publicaciones(a) + Publicaciones(b)
    decreases |b|
  {
    if b != [] {
      assert (a + b)[..|a + b| - 1] == a + b[..|b| - 1];
      PublicacionesConcat(a, b[..|b| - 1]);
    } else {
      assert a + b == a;
    }
  }

  /** Serving one more payload appends its events. */
  lemma TrazaUltima(cargas: seq<string>, c: string)
    ensures Traza(cargas + [c]) == Traza(cargas) + Paso(c)
  {
    assert (cargas + [c])[..|cargas|] == cargas;
  }

  /** The replies and the publications of one payload's events. */
  lemma LeerPaso(c: string)
    ensures Respuestas(Paso(c)) == [Respuesta(c)]
    ensures Publicaciones(Paso(c)) == if Clasificar(c).Some? then [(NombreTopico(Clasificar(c).value), c)] else []
  {
    var p := Paso(c);
    if Clasificar(c).Some? {
      assert p[..1] == [Respondido(ACK)];
      assert p[..1][..0] == [];
    } else {
      assert p[..0] == [];
    }
  }

  /** One reply per delivered payload, in order: ACK exactly for the recognised ones. */
  lemma {:induction false} UnaRespuestaPorCarga(cargas: seq<string>)
    ensures |Respuestas(Traza(cargas))| == |cargas|
    ensures forall i :: 0 <= i < |cargas| ==> Respuestas(Traza(cargas))[i] == Respuesta(cargas[i])
  {
    if cargas != [] {
      var previas := cargas[..|cargas| - 1];
      var c := cargas[|cargas| - 1];
      UnaRespuestaPorCarga(previas);
      RespuestasConcat(Traza(previas), Paso(c));
      LeerPaso(c);
      var rs := Respuestas(Traza(previas));
      assert Respuestas(Traza(cargas)) == rs + [Respuesta(c)];
      forall i | 0 <= i < |cargas|
        ensures (rs + [Respuesta(c)])[i] == Respuesta(cargas[i])
      {
        if i < |previas| {
          assert cargas[i] == previas[i];
        }
      }
    }
  }

  /**
   * What is published is exactly the recognised payloads, unchanged and in order, each
   * under the topic its prefix names; a NACKed payload is published nowhere.
   */
  lemma {:induction false} PublicaLoReconocido(cargas: seq<string>)
    ensures Publicaciones(Traza(cargas)) == Frames(Reconocidas(cargas))
  {
    if cargas != [] {
      var previas := cargas[..|cargas| - 1];
      var c := cargas[|cargas| - 1];
      PublicaLoReconocido(previas);
      PublicacionesConcat(Traza(previas), Paso(c));
      LeerPaso(c);
      if Clasificar(c).Some? {
        FramesUltima(Reconocidas(previas), c);
      }
    }
  }

  /** The (topic, payload) frame of each recognised payload. */
  function Frames(cargas: seq<string>): (r: seq<(string, string)>)
    requires forall i :: 0 <= i < |cargas| ==> Clasificar(cargas[i]).Some?
    ensures |r| == |cargas|
    ensures forall i :: 0 <= i < |cargas| ==> r[i] == (NombreTopico(Clasificar(cargas[i]).value), cargas[i])
  {
    if cargas == [] then []
    else Frames(cargas[..|cargas| - 1]) + [(NombreTopico(Clasificar(cargas[|cargas| - 1]).value), cargas[|cargas| - 1])]
  }

  /** One more recognised payload adds its frame. */
  lemma FramesUltima(cargas: seq<string>, c: string)
    requires forall i :: 0 <= i < |cargas| ==> Clasificar(cargas[i]).Some?
    requires Clasificar(c).Some?
    ensures Frames(cargas + [c]) == Frames(cargas) + [(NombreTopico(Clasificar(c).value), c)]
  {
    assert (cargas + [c])[..|cargas|] == cargas;
  }

  /** Every publication comes right after an ACK: the request is acknowledged before it is published. */
  lemma {:induction false} AckAntesDePublicar(cargas: seq<string>)
    ensures forall i :: 0 <= i < |Traza(cargas)| && Traza(cargas)[i].Publicado? ==>
              0 < i && Traza(cargas)[i - 1] == Respondido(ACK)
  {
    if cargas != [] {
      var previas := cargas[..|cargas| - 1];
      AckAntesDePublicar(previas);
      var a: seq<Evento> := Traza(previas);
      var p: seq<Evento> := Paso(cargas[|cargas| - 1]);
      assert Traza(cargas) == a + p;
      forall i: int | 0 <= i < |a + p| && (a + p)[i].Publicado?
        ensures 0 < i && (a + p)[i - 1] == Respondido(ACK)
      {
        if i < |a| {
          assert (a + p)[i] == a[i] && (a + p)[i - 1] == a[i - 1];
        } else {
          assert (a + p)[i] == p[i - |a|];
          assert i - |a| == 1 && p[0] == Respondido(ACK);
        }
      }
    }
  }

  // ---------------------------------------------------------------- the dispatcher

  /**
   * The dispatcher's state: the endpoints its REP and PUB sockets are bound to (null until
   * iniciarRep / iniciarPub) and the trace of what it has sent.
   */
  class GestorCarga {
    var rep: Option<string>
    var pub: Option<string>
    var traza: seq<Evento>

    /** A new dispatcher: no socket yet, nothing sent. */
    constructor ()
      ensures rep == None && pub == None && traza == []
    {
      rep := None;
      pub := None;
      traza := [];
    }

    /** iniciarRep: the REP socket is bound to `repBind`. */
    method IniciarRep(repBind: string)
      modifies this`rep
      ensures rep == Some(repBind)
    {
      rep := Some(repBind);
    }

    /** iniciarPub: the PUB socket is bound to `pubBind`. */
    method IniciarPub(pubBind: string)
      modifies this`pub
      ensures pub == Some(pubBind)
    {
      pub := Some(pubBind);
    }

    /** The body of runLoop for one delivered payload: ACK and publish, or NACK. */
    method Despachar(carga: string)
      modifies this`traza
      ensures traza == old(traza) + Paso(carga)
    {
      var topico := Clasificar(carga);
      if topico.None? {
        traza := traza + [Respondido(NACK)];
      } else {
        traza := traza + [Respondido(ACK)];
        traza := traza + [Publicado(NombreTopico(topico.value), carga)];
      }
    }

    /**
     * runLoop over the messages `recibidos` received before the thread is interrupted:
     * raises when either socket is missing, sending nothing; otherwise every delivered
     * payload adds its events to the trace.
     */
    method RunLoop(recibidos: seq<Option<string>>) returns (r: Outcome<()>)
      modifies this`traza
      ensures rep.None? || pub.None? ==> r.IllegalState? && traza == old(traza)
      ensures rep.Some? && pub.Some? ==> r.Returned? && traza == old(traza) + Traza(Cargas(recibidos))
    {
      if rep.None? || pub.None? {
        return IllegalState;
      }
      var i := 0;
      while i < |recibidos|
        invariant 0 <= i <= |recibidos|
        invariant traza == old(traza) + Traza(Cargas(recibidos[..i]))
      {
        ghost var previas := Cargas(recibidos[..i]);
        assert recibidos[..i + 1][..i] == recibidos[..i];
        var req := recibidos[i];
        if req.Some? {
          var carga := req.value;
          assert Cargas(recibidos[..i + 1]) == previas + [carga];
          TrazaUltima(previas, carga);
          Despachar(carga);
        } else {
          assert Cargas(recibidos[..i + 1]) == previas;
        }
        i := i + 1;
      }
      assert recibidos[..i] == recibidos;
      return Returned(());
    }
  }
}
