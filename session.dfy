/**
  The device session (`FantechAria`): the connection to interface 1 of the
  mouse and the handshake -> payload -> commit sequence around every
  configuration write.  The HID library is replaced by an abstract
  transport: the object records every frame handed to
  `send_feature_report`, and two constants fixed at construction say which
  send attempts fail and whether opening the device fails.
*/
module Session {

  import opened Wrappers
  import opened Protocol

  /** The interface number of the mouse that accepts the vendor reports. */
  const TargetInterface: int := 1

  /** One descriptor returned by `hid.enumerate(VID, PID)`; `interfaceNumber` may be missing. */
  datatype InterfaceInfo = InterfaceInfo(path: string, interfaceNumber: Option<int>)

  predicate IsTarget(d: InterfaceInfo)
  {
    d.interfaceNumber == Some(TargetInterface)
  }

  /** The first descriptor whose interface number is 1, if there is one. */
  function SelectInterface(interfaces: seq<InterfaceInfo>): (r: Option<InterfaceInfo>)
    ensures r.None? <==> forall k | 0 <= k < |interfaces| :: !IsTarget(interfaces[k])
    ensures r.Some? ==> exists k | 0 <= k < |interfaces| ::
      && interfaces[k] == r.value && IsTarget(r.value)
      && forall j | 0 <= j < k :: !IsTarget(interfaces[j])
  {
    if interfaces == [] then None
    else if IsTarget(interfaces[0]) then Some(interfaces[0])
    else
      var r := SelectInterface(interfaces[1..]);
      assert forall k | 1 <= k < |interfaces| :: interfaces[k] == interfaces[1..][k - 1];
      r
  }

  /** What `aplicar_polling` and `aplicar_dpi` end in: normal return or the exception raised. */
  datatype ApplyOutcome = Applied | ValueError | RuntimeError

  /** Whether send attempt number `k` goes through. */
  predicate SendSucceeds(open: bool, failing: set<nat>, k: nat)
  {
    open && k !in failing
  }

  /** The frames handed to the transport, and whether every one of them went through. */
  datatype SendRun = SendRun(attempted: seq<Frame>, ok: bool)

  /**
    Sending `frames` one after the other, the first being send attempt
    number `start`, where a failing send raises and so ends the sequence.
  */
  function SendAll(frames: seq<Frame>, start: nat, open: bool, failing: set<nat>): (r: SendRun)
    ensures |r.attempted| <= |frames| && r.attempted == frames[..|r.attempted|]
    ensures r.ok <==> forall k | start <= k < start + |frames| :: SendSucceeds(open, failing, k)
    ensures r.ok ==> r.attempted == frames
    ensures !r.ok ==>
      && |r.attempted| >= 1
      && !SendSucceeds(open, failing, start + |r.attempted| - 1)
      && forall k | start <= k < start + |r.attempted| - 1 :: SendSucceeds(open, failing, k)
    decreases |frames|
  {
    if frames == [] then SendRun([], true)
    else if !SendSucceeds(open, failing, start) then SendRun([frames[0]], false)
    else
      var rest := SendAll(frames[1..], start + 1, open, failing);
      SendRun([frames[0]] + rest.attempted, rest.ok)
  }

  /** The observable effect of one apply call. */
  datatype ApplyRun = ApplyRun(outcome: ApplyOutcome, sent: seq<Frame>)

  /**
    One apply call: a payload the table has no entry for raises ValueError
    before anything is sent; otherwise handshake, payload and commit are sent
    in that order and a failing send surfaces as RuntimeError.
  */
  function ApplySpec(payload: Option<Frame>, start: nat, open: bool, failing: set<nat>): (r: ApplyRun)
    ensures r.outcome == ValueError <==> payload.None?
    ensures payload.None? ==> r.sent == []
    ensures payload.Some? ==> 1 <= |r.sent| <= 3 && r.sent[0] == HandshakeFrame()
    ensures r.outcome == Applied ==> r.sent == [HandshakeFrame(), payload.value, CommitFrame()]
  {
    match payload
    case None => ApplyRun(ValueError, [])
    case Some(p) =>
      var run := SendAll([HandshakeFrame(), p, CommitFrame()], start, open, failing);
      ApplyRun(if run.ok then Applied else RuntimeError, run.attempted)
  }

  /**
    What an apply call sends and returns: nothing and ValueError for an
    unsupported value; exactly handshake, payload, commit when every send goes
    through; otherwise RuntimeError after a non-empty prefix of that sequence
    whose last frame is the failed send, with nothing sent after it.
  */
  lemma ApplySequencing(payload: Option<Frame>, start: nat, open: bool, failing: set<nat>)
    ensures var r := ApplySpec(payload, start, open, failing);
      && (payload.None? <==> r.outcome == ValueError)
      && (payload.None? ==> r.sent == [])
      && (payload.Some? ==>
        && (r.outcome == Applied <==> forall k | start <= k < start + 3 :: SendSucceeds(open, failing, k))
        && (r.outcome == Applied ==> r.sent == [HandshakeFrame(), payload.value, CommitFrame()])
        && (r.outcome == RuntimeError ==>
          && 1 <= |r.sent| <= 3
          && r.sent == [HandshakeFrame(), payload.value, CommitFrame()][..|r.sent|]
          && !SendSucceeds(open, failing, start + |r.sent| - 1)))
  {
  }

  /** An apply whose payload passes the checksum sends only frames that pass it. */
  lemma ApplySentPassChecksum(payload: Option<Frame>, start: nat, open: bool, failing: set<nat>)
    requires payload.Some? ==> ChecksumOk(payload.value)
    ensures forall k | 0 <= k < |ApplySpec(payload, start, open, failing).sent| ::
      ChecksumOk(ApplySpec(payload, start, open, failing).sent[k])
  {
    ConstantFramesChecksum();
    if payload.Some? {
      var frames := [HandshakeFrame(), payload.value, CommitFrame()];
      var sent := ApplySpec(payload, start, open, failing).sent;
      assert sent == frames[..|sent|];
      assert forall k | 0 <= k < |frames| :: ChecksumOk(frames[k]);
    }
  }

  /**
    When only the commit send fails, applying 500 Hz raises RuntimeError
    after the handshake, the payload and the failed commit were each handed
    to the transport once.
  */
  lemma CommitFailureExample()
    ensures ApplySpec(PollingPayload(500), 0, true, {2})
      == ApplyRun(RuntimeError, [HandshakeFrame(), PollingPayload(500).value, CommitFrame()])
  {
    var frames := [HandshakeFrame(), PollingPayload(500).value, CommitFrame()];
    assert frames[1..][1..] == [CommitFrame()];
    assert SendAll(frames[1..][1..], 2, true, {2}) == SendRun([CommitFrame()], false);
  }

  /**
    The device object.  `handle` is the path the handle is open on (`None` while
    closed), `sent` every frame handed to `send_feature_report` so far.
    Send attempt number `k` (counting from 0 over the object's life) fails
    when `k` is in `failing` or the device is not open; `open_path` fails
    when `openFails` holds.
  */
  class FantechAria {
    var handle: Option<string>
    var sent: seq<Frame>
    const failing: set<nat>
    const openFails: bool

    constructor (failing: set<nat>, openFails: bool)
      ensures handle == None && sent == []
      ensures this.failing == failing && this.openFails == openFails
    {
      this.failing := failing;
      this.openFails := openFails;
      handle := None;
      sent := [];
    }

    /** `conectar`: open the first descriptor of interface 1; false when there is none or opening fails. */
    method Connect(interfaces: seq<InterfaceInfo>) returns (ok: bool)
      modifies this
      ensures ok <==> SelectInterface(interfaces).Some? && !openFails
      ensures handle == if ok then Some(SelectInterface(interfaces).value.path) else old(handle)
      ensures sent == old(sent)
    {
      var target := SelectInterface(interfaces);
      if target.Some? {
        if openFails {
          ok := false;
        } else {
          handle := Some(target.value.path);
          ok := true;
        }
      } else {
        ok := false;
      }
    }

    /** `fechar`: release the handle; a failure to close is swallowed. */
    method Close()
      modifies this
      ensures handle == None && sent == old(sent)
    {
      handle := None;
    }

    /** `device.send_feature_report`: the frame is recorded, and the attempt goes through or fails. */
    method Send(frame: Frame) returns (ok: bool)
      modifies this
      ensures ok == SendSucceeds(handle.Some?, failing, |old(sent)|)
      ensures sent == old(sent) + [frame] && handle == old(handle)
    {
      ok := SendSucceeds(handle.Some?, failing, |sent|);
      sent := sent + [frame];
    }

    /** `enviar_handshake` */
    method SendHandshake() returns (ok: bool)
      modifies this
      ensures ok == SendSucceeds(handle.Some?, failing, |old(sent)|)
      ensures sent == old(sent) + [HandshakeFrame()] && handle == old(handle)
    {
      ok := Send(HandshakeFrame());
    }

    /** `commit_flash` */
    method CommitFlash() returns (ok: bool)
      modifies this
      ensures ok == SendSucceeds(handle.Some?, failing, |old(sent)|)
      ensures sent == old(sent) + [CommitFrame()] && handle == old(handle)
    {
      ok := Send(CommitFrame());
    }

    /** Handshake, payload, commit, stopping at the first send that fails. */
    method SendWrapped(payload: Frame) returns (ok: bool)
      modifies this
      ensures var run := SendAll([HandshakeFrame(), payload, CommitFrame()], |old(sent)|, handle.Some?, failing);
        ok == run.ok && sent == old(sent) + run.attempted
      ensures handle == old(handle)
    {
      ghost var start := |sent|;
      ghost var frames := [HandshakeFrame(), payload, CommitFrame()];
      ghost var isOpen := handle.Some?;
      assert SendAll(frames[2..], start + 2, isOpen, failing)
        == if SendSucceeds(isOpen, failing, start + 2) then SendRun([frames[2]], true) else SendRun([frames[2]], false);
      ok := SendHandshake();
      if ok {
        ok := Send(payload);
        if ok {
          ok := CommitFlash();
        }
      }
    }

    /** `aplicar_polling`: look the rate up, then send handshake, polling frame, commit. */
    method ApplyPolling(hz: int) returns (r: ApplyOutcome)
      modifies this
      ensures var run := ApplySpec(PollingPayload(hz), |old(sent)|, handle.Some?, failing);
        r == run.outcome && sent == old(sent) + run.sent
      ensures handle == old(handle)
    {
      var code := PollingCode(hz);
      if code.None? {
        return ValueError;
      }
      var ok := SendWrapped(PollingFrame(code.value));
      r := if ok then Applied else RuntimeError;
    }

    /** `aplicar_dpi`: look the level up, then send handshake, DPI frame, commit. */
    method ApplyDpi(dpi: int) returns (r: ApplyOutcome)
      modifies this
      ensures var run := ApplySpec(DpiPayload(dpi), |old(sent)|, handle.Some?, failing);
        r == run.outcome && sent == old(sent) + run.sent
      ensures handle == old(handle)
    {
      var entry := DpiCode(dpi);
      if entry.None? {
        return ValueError;
      }
      var ok := SendWrapped(DpiFrame(entry.value.main, entry.value.aux));
      r := if ok then Applied else RuntimeError;
    }
  }
}
