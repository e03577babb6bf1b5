# Fantech Aria vendor protocol — a Dafny model

This project models the command protocol that `main.py` uses to configure a
Fantech Aria gaming mouse over USB HID, and proves properties of it:

- **Frame encoder** (`protocol.dfy`, module `Protocol`): the polling table
  (`POLLING_MAP`, 250/500/1000 Hz to a byte pair) and the DPI table
  (`DPI_MAP`, 800/1600/3200/8000 to `main`/`aux` bytes), and the four 17-byte
  feature reports built from them: handshake `08 03 00*14 4a`, commit
  `08 04 00*14 49`, the polling payload and the DPI frame. The layouts are
  stated position by position, and the last byte of every frame is shown to
  be a checksum: for every table entry the bytes sum to 0x55 modulo 256.
- **Device session** (`session.dfy`, module `Session`): the `FantechAria`
  class. The HID library is replaced by an abstract transport. The object
  records every frame handed to `send_feature_report`, and two constants
  fixed at construction say which send attempts fail and whether opening
  the device fails. `Connect` picks the first descriptor with interface
  number 1. `ApplyPolling` and `ApplyDpi` check the value against the table
  and then send handshake, payload and commit. A failing send stops the
  sequence and surfaces as `RuntimeError`. They are proved equal to the pure
  functions `SendAll` and `ApplySpec`.
- **Argument parsing and menus** (`cli.dfy`, module `Cli`): `parse_args` as a
  loop over `argv[1:]` whose per-argument effect is `ArgEffectAt`. It keeps
  the source's quirks: `lstrip('-')` strips every leading dash, and
  `argv.index` reads the value after the first occurrence of a repeated flag.
  The menu fallbacks map an already-parsed choice to a rate or a level,
  including Python's negative indexing in `items[idx-1]`.
- **Run outcome** (`app.dfy`, module `App`): `main`, split at line 175 into
  `ResolveSettings` (parsed arguments with menu fallbacks) and `RunSession`.
  `RunSession` connects, applies polling unless it is 125 Hz, applies DPI
  whatever polling did, closes, and returns the exit code. That code is 2 on
  a failed connection, otherwise 4 if DPI failed, else 3 if polling failed,
  else 0.

`wrappers.dfy` holds the `Option` type used for Python's `None`.

Every frame the code builds has 17 bytes: the handshake and commit frames
(main.py:51, 55) are 2+14+1 bytes, the polling payload (main.py:64) is
8+8+1, and the DPI frame (main.py:74-75) is 10+6+1.

## Model

| member | source | states |
|---|---|---|
| `Protocol.PollingCode` | main.py:7-11 | the polling table has an entry exactly for 250, 500 and 1000 Hz |
| `Protocol.DpiCode` | main.py:13-18 | the DPI table has an entry exactly for 800, 1600, 3200 and 8000 |
| `Protocol.PollingPayload` | main.py:58-64 | a payload exists exactly for rates in the table; any other rate, 125 included, is the ValueError case |
| `Protocol.DpiPayload` | main.py:77-85 | a DPI frame exists exactly for levels in the table; any other level is the ValueError case |
| `Protocol.HandshakeFrame` | main.py:51 | the handshake is 17 bytes: `08 03`, zeros at 2-15, `4a` at 16 |
| `Protocol.CommitFrame` | main.py:55 | the commit is 17 bytes: `08 04`, zeros at 2-15, `49` at 16 |
| `Protocol.PollingFrame` | main.py:64 | the polling payload is 17 bytes: `08 07 00 00 00 02`, b6 at 6, b7 at 7, zeros at 8-15, `ef` at 16 |
| `Protocol.DpiFrame` | main.py:73-75 | the DPI frame is 17 bytes: `08 07 00 00 0c 04`, main at 6 and 7, 0 at 8, aux at 9, zeros at 10-15, `e1` at 16 |
| `Protocol.HandshakeLayout` | main.py:50-52 | a frame is the handshake iff it is the 17 bytes `08 03`, fourteen zeros, `4a` |
| `Protocol.CommitLayout` | main.py:54-56 | a frame is the commit iff it is the 17 bytes `08 04`, fourteen zeros, `49` |
| `Protocol.PollingLayout` | main.py:64 | a frame is the polling payload of an entry iff it has 17 bytes: `08 07 00 00 00 02`, b6 at 6, b7 at 7, zeros at 8-15, `ef` at 16 |
| `Protocol.DpiLayout` | main.py:73-75 | a frame is the DPI frame of (main, aux) iff it has 17 bytes: `08 07 00 00 0c 04`, main at 6 and 7, 0 at 8, aux at 9, zeros at 10-15, `e1` at 16 |
| `Protocol.PollingPayloadLayout` | main.py:59-64 | for every supported rate the payload has the polling layout with that rate's table pair at bytes 6 and 7 |
| `Protocol.DpiPayloadLayout` | main.py:78-85 | for every supported level the frame has the DPI layout with that level's main and aux bytes |
| `Protocol.FrameKindsDistinct` | main.py:50-75 | handshake, commit, polling and DPI frames are pairwise different for all table entries |
| `Protocol.ChecksumIsTerminator` | main.py:64 | a 17-byte frame sums to 0x55 mod 256 iff its last byte is the terminator computed from the first 16 |
| `Protocol.PollingChecksum` | main.py:64 | a polling frame passes the checksum iff b6 + b7 is 0x55 mod 256 |
| `Protocol.DpiChecksum` | main.py:74-75 | a DPI frame passes the checksum iff 2*main + aux is 0x55 mod 256 |
| `Protocol.ConstantFramesChecksum` | main.py:50-56 | the handshake and commit frames sum to 0x55 mod 256 |
| `Protocol.PollingPayloadChecksum` | main.py:7-11 | for every rate of the table the polling payload sums to 0x55 mod 256 |
| `Protocol.DpiPayloadChecksum` | main.py:13-18 | for every level of the table the DPI frame sums to 0x55 mod 256 |
| `Session.SelectInterface` | main.py:32-33 | the result is the first descriptor whose interface number is 1, and None iff there is none |
| `Session.FantechAria.Send` | main.py:66 | the frame is appended to those handed to the transport and the handle is unchanged; the send succeeds iff the device is open and that attempt is not a failing one |
| `Session.SendAll` | main.py:62-71 | the frames sent are a prefix of those asked for; all of them go through iff every attempt succeeds; otherwise the last one sent is the first failing attempt and nothing follows it |
| `Session.ApplySpec` | main.py:58-71 | ValueError iff the value has no table entry, and then nothing is sent; otherwise the handshake is sent first and at most three frames go out; an applied value sent exactly handshake, payload, commit |
| `Session.ApplySequencing` | main.py:58-71 | an unsupported value raises ValueError with nothing sent; otherwise the apply succeeds iff its three sends go through, and then sends exactly handshake, payload, commit; on failure it raises RuntimeError after a non-empty prefix of that sequence ending at the failed send |
| `Session.ApplySentPassChecksum` | main.py:58-92 | an apply sends only frames that pass the checksum when its payload does |
| `Session.CommitFailureExample` | main.py:62-71 | when only the commit fails, applying 500 Hz raises RuntimeError after handshake, payload and commit were each sent once |
| `Session.FantechAria.constructor` | main.py:24-25 | a new device object is closed and has sent nothing |
| `Session.FantechAria.Connect` | main.py:31-42 | succeeds iff a descriptor of interface 1 exists and opening it does not fail; then the first such descriptor's path is open; nothing is sent |
| `Session.FantechAria.Close` | main.py:44-48 | the handle is released and never raises, whatever state the object was in |
| `Session.FantechAria.SendHandshake` | main.py:50-52 | sends the handshake frame once; succeeds iff that attempt goes through |
| `Session.FantechAria.CommitFlash` | main.py:54-56 | sends the commit frame once; succeeds iff that attempt goes through |
| `Session.FantechAria.SendWrapped` | main.py:62-68 | sends handshake, payload, commit, stopping at the first failed send, as `SendAll` describes |
| `Session.FantechAria.ApplyPolling` | main.py:58-71 | outcome and frames sent are those of `ApplySpec` for the rate's payload |
| `Session.FantechAria.ApplyDpi` | main.py:77-92 | outcome and frames sent are those of `ApplySpec` for the level's frame |
| `Cli.IsDigits` | main.py:102 | a string `isdigit` accepts is non-empty and holds neither a dash nor "=" |
| `Cli.DecimalValue` | main.py:103 | `int` of a string of k digits is a natural number below 10^k |
| `Cli.DecimalValueLeadingZero` | main.py:103 | a leading zero does not change the value `int` reads, so `--0250` means 250 |
| `Cli.LStripDashes` | main.py:112 | the result is the input without all of its leading dashes |
| `Cli.IndexOf` | main.py:124 | the result is the first position holding the element |
| `Cli.SplitAtEquals` | main.py:112 | the input is key + "=" + value, and the key holds no "=" |
| `Cli.BareFlag` | main.py:102-109 | a `--N` argument is accepted only when N is a digit string whose value is in one of the tables; it sets the rate N, or the level N only when N is not a rate |
| `Cli.KeyValueFlag` | main.py:111-120 | a `--key=N` argument is accepted only for values in the matching table; the value set is `int` of the part after the first `=`, which must be a digit string (so `--poll=abc` has no effect); a rate is set only when the stripped argument starts with `poll=` or `polling=`, a level only when it starts with `dpi=` |
| `Cli.KeyValueEffect` | main.py:113-120 | a key and value take effect only when the value is a digit string; a rate `int(val)` is set only for the keys `poll` and `polling`, a level `int(val)` only for `dpi`, each only from its table |
| `Cli.SeparateFlag` | main.py:122-132 | only `-p`/`--poll`/`-d`/`--dpi` have an effect; a polling flag never sets a level and a DPI flag never sets a rate; the value set is the one read after the flag's first occurrence and is in the matching table |
| `Cli.ArgEffectAt` | main.py:98-132 | every argument either has no effect or sets a rate or level that the tables hold |
| `Cli.ArgEffects` | main.py:98 | one effect per argument of `argv[1:]`, in order, each setting only values the tables hold |
| `Cli.LastPolling` | main.py:95-133 | a parsed rate is one that some argument sets |
| `Cli.LastDpi` | main.py:95-133 | a parsed level is one that some argument sets |
| `Cli.LastPollingWins` | main.py:95-133 | the parsed rate is hz iff some argument sets hz and no later argument sets a rate |
| `Cli.LastPollingAbsent` | main.py:96 | no rate is parsed iff no argument sets one |
| `Cli.LastDpiWins` | main.py:95-133 | the parsed level is d iff some argument sets d and no later argument sets a level |
| `Cli.LastDpiAbsent` | main.py:97 | no level is parsed iff no argument sets one |
| `Cli.BareFormEffect` | main.py:102-109 | for every digit string N, `--N` sets the rate N if the rate table holds it, else the level N if the level table holds it, else does nothing |
| `Cli.KeyValueFormEffect` | main.py:111-120 | for every digit string N and any run of two or more dashes, `--poll=N` and `--polling=N` set the rate N when the rate table holds it, `--dpi=N` sets the level N when the level table holds it, and otherwise the argument does nothing |
| `Cli.SeparateFormEffect` | main.py:122-130 | `-p`/`--poll` (`-d`/`--dpi`) sets the rate (level) N read after the flag's first occurrence when that argument is a digit string and the table holds N; the argument does nothing exactly when that fails |
| `Cli.ParseArgs` | main.py:95-133 | the loop returns the last accepted rate and level; both are in their tables, so the rate is never 125 |
| `Cli.BareRateFlag` | main.py:102-106 | `--1000` sets the rate to 1000 |
| `Cli.BareLevelFlag` | main.py:102-109 | `--3200` sets the level to 3200 |
| `Cli.BareFlag125` | main.py:102-109 | `--125` has no effect |
| `Cli.KeyValueStripsAllDashes` | main.py:111-120 | `---dpi=800` sets the level to 800 because every leading dash is stripped |
| `Cli.RepeatedFlagReadsFirstValue` | main.py:122-130 | `-p 250 -p 500` leaves the rate at 250 because the value is read after the first `-p` |
| `Cli.PollingMenuChoice` | main.py:135-150 | the menu yields 125 or a rate of the table, and 125 exactly for choice 1 |
| `Cli.PollingMenuMapping` | main.py:135-150 | choices 1, 2, 3 and 4 give 125, 250, 500 and 1000 Hz; a missing or unlisted choice gives the default 250 |
| `Cli.DpiMenuIsSortedKeys` | main.py:153 | the DPI menu lists exactly the table's levels in increasing order |
| `Cli.PyIndex` | main.py:161 | Python indexing succeeds exactly for -len <= k < len and yields the element at k mod len |
| `Cli.DpiMenuChoice` | main.py:152-164 | the DPI menu always yields a level of the table |
| `Cli.DpiMenuChoiceWraps` | main.py:158-163 | choices -3 to 4 pick entry (c-1) mod 4, so 0 gives 8000; every other choice gives 3200 |
| `App.ResolveSettings` | main.py:166-174 | each setting is the parsed value, or else the menu's; the rate is 125 only when no argument set a rate and the menu choice was 1 |
| `App.SessionSpec` | main.py:176-209 | the exit code is 0, 2, 3 or 4; it is 2 iff the connection fails, and then nothing is sent; it is 4 iff the connection succeeds and the DPI apply fails |
| `App.RunSession` | main.py:176-209 | exit code and frames sent are those of `SessionSpec`, and the device is closed at the end |
| `App.ExitCodeMeaning` | main.py:185-209 | exit code 2 iff the connection fails, with nothing sent; otherwise 4 iff DPI failed, 3 iff DPI succeeded and polling failed, 0 iff neither failed |
| `App.DpiAlwaysAttempted` | main.py:190-202 | after a connection, the DPI handshake is sent right after the polling frames whatever polling did |
| `App.SkipsSlowRate` | main.py:176-193 | at 125 Hz only the DPI apply's frames are sent, and none of them is a polling frame |
| `App.HappyPath` | main.py:189-204 | with no failures the run sends handshake, polling, commit, handshake, DPI, commit, and exits 0 |
| `App.EndToEndExample` | main.py:189-202 | 1000 Hz and 3200 DPI send six frames, the polling one carrying 01 54 and the DPI one main 3f and aux d7 |
| `App.SentFramesPassChecksum` | main.py:189-202 | every frame a run sends passes the checksum, for all inputs and failures |

## Left out

- The `hid` library (`hid.device`, `hid.enumerate`, `open_path`, `send_feature_report`, `close`) is replaced by an abstract transport. The descriptor list is taken to be what `hid.enumerate(0x25A7, 0xFA7C)` returned, so the vendor and product filter is not modelled. A send on a device that is not open counts as a failed send. A failed send is still recorded among the frames handed to the transport.
- `preparar_sistema` is not modelled: it kills an OS process (`taskkill`) and sleeps.
- `time.sleep` delays are not modelled; they are real-time firmware timing only.
- `print` output is not modelled.
- `input()` is not modelled: each menu choice is given already parsed, with `None` where `int()` raised. The empty-input defaults ("2" and "3") are left to the caller, who passes `Some(2)` or `Some(3)`.
- `sys.exit` is not modelled: the exit code is returned as a value. `main` is modelled as two methods, `ResolveSettings` (lines 166-174) and `RunSession` (lines 176-209). The transport's behaviour reaches `RunSession` as parameters.
- `str.isdigit` and `int` are taken over ASCII decimal digits only. Unicode digits, signs, whitespace and underscores are not modelled.
- `Session.FantechAria.Connect`: a failure of `hid.enumerate` itself is not modelled, nor is opening a device that is already open. Only a failing `open_path` is.
