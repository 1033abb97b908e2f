/** The client's discovery and send: every top-level window was probed for
    the channel property; each window whose reply carries a format (the
    property is set) is taken to be a server and receives the encoded
    command. The windowing system itself is not part of the model: a probe
    reply is the window and the format byte of the reply. */
module Client {
  import opened Wire

  /** A window identifier (an X11 resource id). */
  type Window = x: int | 0 <= x < 0x1_0000_0000

  /** The format of a property reply, 0 when the property is not set. */
  type Format = x: int | 0 <= x < 256

  /** The reply to the probe of one child of the root window. */
  datatype Probe = Probe(window: Window, format: Format)

  /** A property write of `data` on `window`. */
  datatype Write = Write(window: Window, data: string)

  /** connect: the writes, in probe order, go to exactly the probed windows
      whose reply has a non-zero format, one write per such reply, so a
      window listed twice is written twice; `sent` gives, for each write,
      the position of its probe. "Server not running" is reported exactly
      when no reply had a non-zero format. */
  method Connect(probes: seq<Probe>, tokens: seq<string>)
    returns (writes: seq<Write>, sent: seq<nat>, notRunning: bool)
    ensures |writes| == |sent|
    ensures forall k :: 0 <= k < |sent| ==>
              sent[k] < |probes| && probes[sent[k]].format != 0
              && writes[k] == Write(probes[sent[k]].window, EncodePayload(tokens))
    ensures forall k, l :: 0 <= k < l < |sent| ==> sent[k] < sent[l]
    ensures forall i :: 0 <= i < |probes| && probes[i].format != 0 ==> i in sent
    ensures notRunning <==> forall i :: 0 <= i < |probes| ==> probes[i].format == 0
  {
    writes, sent := [], [];
    var success := false;
    var i := 0;
    while i < |probes|
      invariant 0 <= i <= |probes|
      invariant |writes| == |sent|
      invariant forall k :: 0 <= k < |sent| ==>
                  sent[k] < i && probes[sent[k]].format != 0
                  && writes[k] == Write(probes[sent[k]].window, EncodePayload(tokens))
      invariant forall k, l :: 0 <= k < l < |sent| ==> sent[k] < sent[l]
      invariant forall j :: 0 <= j < i && probes[j].format != 0 ==> j in sent
      invariant success <==> exists j :: 0 <= j < i && probes[j].format != 0
    {
      if probes[i].format != 0 {
        var data := EncodePayload(tokens);
        writes := writes + [Write(probes[i].window, data)];
        sent := sent + [i];
        success := true;
      }
      i := i + 1;
    }
    notRunning := !success;
  }
}
