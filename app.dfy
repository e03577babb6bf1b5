/**
  The program's `main`: resolve the polling rate and the DPI from the
  command line and the menus, then connect, apply polling (skipped at
  125 Hz), apply DPI whatever polling did, close, and report an exit code:
  2 when the connection fails, otherwise 4 when DPI failed, else 3 when
  polling failed, else 0.  The process exit is returned as a value.
*/
module App {

  import opened Wrappers
  import opened Protocol
  import opened Session
  import opened Cli

  /** The menu offers this rate, but `main` never applies it. */
  const SkippedRate: int := 125

  /**
    The first half of `main`: the parsed arguments, with a menu consulted for
    each setting the command line left unset.  The menu choices are given
    already parsed (`None` where `int()` raised).
  */
  method ResolveSettings(argv: seq<string>, pollingChoice: Option<int>, dpiChoice: Option<int>)
    returns (polling: int, dpi: int)
    ensures polling == match LastPolling(ArgEffects(argv))
      case Some(hz) => hz
      case None => PollingMenuChoice(pollingChoice)
    ensures dpi == match LastDpi(ArgEffects(argv))
      case Some(d) => d
      case None => DpiMenuChoice(dpiChoice)
    ensures polling == SkippedRate || polling in PollingRates
    ensures polling == SkippedRate <==> LastPolling(ArgEffects(argv)).None? && pollingChoice == Some(1)
    ensures dpi in DpiLevels
  {
    var pollingArg, dpiArg := ParseArgs(argv);
    if pollingArg.None? || dpiArg.None? {
      if pollingArg.None? {
        pollingArg := Some(PollingMenuChoice(pollingChoice));
      }
      if dpiArg.None? {
        dpiArg := Some(DpiMenuChoice(dpiChoice));
      }
    }
    polling, dpi := pollingArg.value, dpiArg.value;
  }

  /** The exit code and every frame handed to the transport during one run. */
  datatype SessionResult = SessionResult(exitCode: int, sent: seq<Frame>)

  /** `conectar` succeeds: a descriptor of interface 1 exists and opening it works. */
  predicate Connects(interfaces: seq<InterfaceInfo>, openFails: bool)
  {
    SelectInterface(interfaces).Some? && !openFails
  }

  /** The polling apply of a run: none at 125 Hz, otherwise one apply whose first send is send 0. */
  function PollingStep(polling: int, failing: set<nat>): Option<ApplyRun>
  {
    if polling == SkippedRate then None
    else Some(ApplySpec(PollingPayload(polling), 0, true, failing))
  }

  function PollingSent(polling: int, failing: set<nat>): seq<Frame>
  {
    match PollingStep(polling, failing)
    case None => []
    case Some(run) => run.sent
  }

  /** The DPI apply of a run, whose sends are numbered after those of the polling apply. */
  function DpiStep(polling: int, dpi: int, failing: set<nat>): ApplyRun
  {
    ApplySpec(DpiPayload(dpi), |PollingSent(polling, failing)|, true, failing)
  }

  /** The second half of `main`, as a value. */
  function SessionSpec(polling: int, dpi: int, interfaces: seq<InterfaceInfo>, openFails: bool, failing: set<nat>)
    : (r: SessionResult)
    ensures r.exitCode in {0, 2, 3, 4}
    ensures r.exitCode == 2 <==> !Connects(interfaces, openFails)
    ensures r.exitCode == 2 ==> r.sent == []
    ensures r.exitCode == 4 <==> Connects(interfaces, openFails) && DpiStep(polling, dpi, failing).outcome != Applied
  {
    if !Connects(interfaces, openFails) then SessionResult(2, [])
    else
      var pollingStep := PollingStep(polling, failing);
      var dpiStep := DpiStep(polling, dpi, failing);
      var code :=
        if dpiStep.outcome != Applied then 4
        else if pollingStep.Some? && pollingStep.value.outcome != Applied then 3
        else 0;
      SessionResult(code, PollingSent(polling, failing) + dpiStep.sent)
  }

  /**
    The second half of `main`: a fresh device object whose transport behaves
    as `interfaces`, `openFails` and `failing` say; polling is applied unless
    it is 125 Hz, DPI is applied whatever polling did, and the device is
    closed before the exit code is returned.  On a failed connection the
    program exits with 2 at once.
  */
  method RunSession(polling: int, dpi: int, interfaces: seq<InterfaceInfo>, openFails: bool, failing: set<nat>)
    returns (exitCode: int, drv: FantechAria)
    ensures fresh(drv) && drv.failing == failing && drv.openFails == openFails
    ensures SessionResult(exitCode, drv.sent) == SessionSpec(polling, dpi, interfaces, openFails, failing)
    ensures drv.handle == None
  {
    var applyPolling := polling != SkippedRate;
    drv := new FantechAria(failing, openFails);
    var connected := drv.Connect(interfaces);
    if !connected {
      return 2, drv;
    }
    exitCode := 0;
    if applyPolling {
      var outcome := drv.ApplyPolling(polling);
      if outcome != Applied {
        exitCode := 3;
      }
    }
    var outcome := drv.ApplyDpi(dpi);
    if outcome != Applied {
      exitCode := 4;
    }
    drv.Close();
  }

  /**
    The exit code: 2 exactly when the connection fails, and then nothing is
    sent; otherwise 4 exactly when the DPI apply fails, 3 exactly when it
    succeeds after a polling apply that failed, and 0 exactly when every
    apply that ran succeeded.
  */
  lemma ExitCodeMeaning(polling: int, dpi: int, interfaces: seq<InterfaceInfo>, openFails: bool, failing: set<nat>)
    ensures var r := SessionSpec(polling, dpi, interfaces, openFails, failing);
      && r.exitCode in {0, 2, 3, 4}
      && (r.exitCode == 2 <==> !Connects(interfaces, openFails))
      && (!Connects(interfaces, openFails) ==> r.sent == [])
      && (Connects(interfaces, openFails) ==>
        var pollingFailed := polling != SkippedRate && PollingStep(polling, failing).value.outcome != Applied;
        var dpiFailed := DpiStep(polling, dpi, failing).outcome != Applied;
        && (r.exitCode == 4 <==> dpiFailed)
        && (r.exitCode == 3 <==> !dpiFailed && pollingFailed)
        && (r.exitCode == 0 <==> !dpiFailed && !pollingFailed))
  {
  }

  /**
    After a successful connection the DPI apply always starts, with its
    handshake right after whatever the polling apply sent, even when that
    apply failed.
  */
  lemma DpiAlwaysAttempted(polling: int, dpi: int, interfaces: seq<InterfaceInfo>, openFails: bool, failing: set<nat>)
    requires Connects(interfaces, openFails) && dpi in DpiLevels
    ensures var r := SessionSpec(polling, dpi, interfaces, openFails, failing);
      var k := |PollingSent(polling, failing)|;
      k < |r.sent| && r.sent[k] == HandshakeFrame()
  {
    var start := |PollingSent(polling, failing)|;
    ApplySequencing(DpiPayload(dpi), start, true, failing);
  }

  /** At 125 Hz the run sends no polling frame: only the DPI apply's frames. */
  lemma SkipsSlowRate(dpi: int, interfaces: seq<InterfaceInfo>, openFails: bool, failing: set<nat>)
    requires Connects(interfaces, openFails)
    ensures var r := SessionSpec(SkippedRate, dpi, interfaces, openFails, failing);
      && r.sent == ApplySpec(DpiPayload(dpi), 0, true, failing).sent
      && forall k, e | 0 <= k < |r.sent| :: r.sent[k] != PollingFrame(e)
  {
    var r := SessionSpec(SkippedRate, dpi, interfaces, openFails, failing);
    ApplySequencing(DpiPayload(dpi), 0, true, failing);
    forall k, e | 0 <= k < |r.sent|
      ensures r.sent[k] != PollingFrame(e)
    {
      var entry := DpiCode(dpi).value;
      FrameKindsDistinct(e, entry.main, entry.aux);
      assert r.sent[k] in [HandshakeFrame(), DpiFrame(entry.main, entry.aux), CommitFrame()];
    }
  }

  /**
    When the connection works, both values are in the tables and the first
    six sends go through, the run sends handshake, polling frame, commit,
    handshake, DPI frame, commit, in that order, and exits with 0.
  */
  lemma HappyPath(polling: int, dpi: int, interfaces: seq<InterfaceInfo>, openFails: bool, failing: set<nat>)
    requires Connects(interfaces, openFails)
    requires polling in PollingRates && dpi in DpiLevels
    requires forall k | 0 <= k < 6 :: k !in failing
    ensures SessionSpec(polling, dpi, interfaces, openFails, failing) == SessionResult(0,
      [HandshakeFrame(), PollingPayload(polling).value, CommitFrame(),
       HandshakeFrame(), DpiPayload(dpi).value, CommitFrame()])
  {
    ApplySequencing(PollingPayload(polling), 0, true, failing);
    ApplySequencing(DpiPayload(dpi), 3, true, failing);
  }

  /**
    1000 Hz and 3200 DPI with a transport that never fails: six frames, the
    polling frame carrying 01 54 and the DPI frame main 3f and aux d7.
  */
  lemma EndToEndExample(interfaces: seq<InterfaceInfo>)
    requires Connects(interfaces, false)
    ensures var r := SessionSpec(1000, 3200, interfaces, false, {});
      && r.exitCode == 0 && |r.sent| == 6
      && r.sent[1][6] == 0x01 && r.sent[1][7] == 0x54
      && r.sent[4][6] == 0x3f && r.sent[4][7] == 0x3f && r.sent[4][9] == 0xd7
  {
    HappyPath(1000, 3200, interfaces, false, {});
    PollingPayloadLayout(1000);
    DpiPayloadLayout(3200);
  }

  /** Every frame a run sends, whatever the inputs and the failures, passes the checksum. */
  lemma SentFramesPassChecksum(polling: int, dpi: int, interfaces: seq<InterfaceInfo>, openFails: bool, failing: set<nat>)
    ensures var r := SessionSpec(polling, dpi, interfaces, openFails, failing);
      forall k | 0 <= k < |r.sent| :: ChecksumOk(r.sent[k])
  {
    var pollingSent := PollingSent(polling, failing);
    if polling in PollingRates {
      PollingPayloadChecksum(polling);
    }
    ApplySentPassChecksum(PollingPayload(polling), 0, true, failing);
    if dpi in DpiLevels {
      DpiPayloadChecksum(dpi);
    }
    ApplySentPassChecksum(DpiPayload(dpi), |pollingSent|, true, failing);
  }
}
