// The gateway's buffer, the guard's link and the receiving application taken together.
module EndToEnd {
  import opened ByteStrings
  import opened Wire
  import Aria
  import Engine
  import Receiver
  import Sender
  import Transfer
  import TransferProperties
  import FrameCodec

  // What the gateway hands to the guard: both endpoints in the clear, then the enciphered body.
  function GatewayBuffer(src: Endpoint, dst: Endpoint, p: Payload, ivs: seq<Aria.Block>): Bytes
    requires |ivs| == 3
  {
    EndpointBytes(src) + EndpointBytes(dst) + Engine.ProcessAll(Engine.SharedModules(), ivs, Body(p))
  }

  method BuildBuffer(src: Endpoint, dst: Endpoint, p: Payload, ivs: seq<Aria.Block>) returns (b: Bytes)
    requires |ivs| == 3
    ensures b == GatewayBuffer(src, dst, p, ivs)
  {
    hide Engine.ProcessAll;
    var engine := Engine.GetProtocolEngine();
    var body := BuildBody(p);
    var secret := engine.Encrypt(ivs, body);
    b := EndpointBytes(src) + EndpointBytes(dst) + secret;
  }

  // What the guard passes on: the endpoints and the deciphered body.
  method OpenBuffer(b: Bytes) returns (src: Endpoint, dst: Endpoint, body: Bytes)
    requires HasHeader(b)
    ensures src == GuardParse(b).src && dst == GuardParse(b).dst
    ensures body == Engine.ReverseAll(Engine.SharedModules(), GuardParse(b).body)
  {
    hide Engine.ReverseAll;
    var parsed := ParseHeader(b);
    var engine := Engine.GetProtocolEngine();
    body := engine.Decrypt(parsed.body);
    src, dst := parsed.src, parsed.dst;
  }

  // The guard recovers both endpoints and the application recovers the payload, whatever
  // the random blocks were.
  lemma BufferRoundTrip(src: Endpoint, dst: Endpoint, p: Payload, ivs: seq<Aria.Block>)
    requires ValidEndpoint(src) && ValidEndpoint(dst) && FitsLengthFields(p) && |ivs| == 3
    ensures var b := GatewayBuffer(src, dst, p, ivs);
            HasHeader(b) && GuardParse(b).src == src && GuardParse(b).dst == dst &&
            AppParse(Engine.ReverseAll(Engine.SharedModules(), GuardParse(b).body)) == Expected(p)
  {
    hide Engine.ProcessAll; hide Engine.ReverseAll; hide Body; hide AppParse; hide EndpointBytes; hide GuardParse;
    GuardRecovers(src, dst, Engine.ProcessAll(Engine.SharedModules(), ivs, Body(p)));
    Engine.SharedEngineRoundTrip(ivs, Body(p));
    AppRecovers(p);
  }

  // From the gateway to the application: if the guard's send of the gateway's buffer
  // returns true (and no START arrived after acknowledged data and before the return), the
  // receiving guard has returned, in that session, a buffer from which both endpoints and the
  // payload are recovered, and nothing else.
  lemma GatewayToApplication(src: Endpoint, dst: Endpoint, p: Payload, ivs: seq<Aria.Block>,
                             j: Sender.Job, D: nat -> Bytes,
                             v: Transfer.System, steps: seq<Transfer.Step>, w: Transfer.System)
    requires ValidEndpoint(src) && ValidEndpoint(dst) && FitsLengthFields(p) && |ivs| == 3
    requires j.d == GatewayBuffer(src, dst, p, ivs)
    requires Transfer.Initial(j, D, v) && TransferProperties.Runs(j, D, v, steps, w)
    requires w.s.phase == Sender.Succeeded && !w.lateStart
    ensures exists x :: x in w.log && x.session == j.sid
    ensures forall x :: x in w.log && x.session == j.sid ==>
              HasHeader(x.message) && GuardParse(x.message).src == src && GuardParse(x.message).dst == dst &&
              AppParse(Engine.ReverseAll(Engine.SharedModules(), GuardParse(x.message).body)) == Expected(p)
  {
    hide *;
    TransferProperties.Delivered(j, D, v, steps, w);
    var k := Transfer.CountedThere(w.log, j.sid);
    assert w.log[k] in w.log;
    BufferRoundTrip(src, dst, p, ivs);
  }

  // The frames of a transfer travel as bytes: each one, padded or not, is parsed back to
  // itself at the address it is sent to.
  lemma FramesTravelAsBytes(j: Sender.Job, dst: FrameCodec.Mac, src: FrameCodec.Mac, i: nat, pad: Bytes)
    requires j.sid < 0x1_0000_0000 && |j.d| < 0x1_0000_0000_0000_0000 && j.N() + 513 < 0x1_0000_0000
    requires i <= j.N() + 1
    ensures var f := if i == 0 then j.StartFrame() else if i <= j.N() then j.DataFrame(i) else j.EndFrame();
            FrameCodec.Parse(dst, FrameCodec.Build(dst, src, f) + pad) == Receiver.Some(f)
    ensures forall used: nat :: used <= Receiver.WINDOW ==>
              var a := Receiver.AckFrame(j.sid, i, used);
              FrameCodec.Parse(src, FrameCodec.Build(src, dst, a) + pad) == Receiver.Some(a)
  {
    hide FrameCodec.Parse; hide FrameCodec.Build;
    var f := if i == 0 then j.StartFrame() else if i <= j.N() then j.DataFrame(i) else j.EndFrame();
    FrameCodec.ParseBuild(dst, src, f, pad);
    forall used: nat | used <= Receiver.WINDOW
      ensures var a := Receiver.AckFrame(j.sid, i, used);
              FrameCodec.Parse(src, FrameCodec.Build(src, dst, a) + pad) == Receiver.Some(a)
    {
      FrameCodec.ParseBuild(src, dst, Receiver.AckFrame(j.sid, i, used), pad);
    }
  }
}
