/**
  The command line and the menu fallbacks: `parse_args` reads `--N`,
  `--key=N` and `-p/--poll/-d/--dpi N` arguments, keeping only values that
  the tables hold, the last accepted one winning; the numbered menus map an
  already-parsed choice to a rate or a level.  `str.isdigit` and `int` are
  taken over ASCII decimal digits only.
*/
module Cli {

  import opened Wrappers
  import opened Protocol

  // ----- String helpers with Python's meaning -----

  predicate IsDigit(c: char)
  {
    '0' <= c <= '9'
  }

  /** `s.isdigit()`: non-empty and every character a decimal digit, so neither a dash nor '='. */
  predicate IsDigits(s: string): (b: bool)
    ensures b ==> |s| > 0 && '-' !in s && '=' !in s
  {
    |s| > 0 && forall i | 0 <= i < |s| :: IsDigit(s[i])
  }

  function Pow10(k: nat): nat
  {
    if k == 0 then 1 else 10 * Pow10(k - 1)
  }

  /** `int(s)` for a string of decimal digits (leading zeros allowed): below ten to the number of digits. */
  function DecimalValue(s: string): (n: nat)
    requires forall i | 0 <= i < |s| :: IsDigit(s[i])
    ensures n < Pow10(|s|)
  {
    if s == [] then 0
    else
      assert IsDigit(s[|s| - 1]);
      DecimalValue(s[..|s| - 1]) * 10 + (s[|s| - 1] as int - '0' as int)
  }

  /** A leading zero does not change the value `int` reads. */
  lemma {:induction false} DecimalValueLeadingZero(s: string)
    requires forall i | 0 <= i < |s| :: IsDigit(s[i])
    ensures DecimalValue("0" + s) == DecimalValue(s)
  {
    if s != [] {
      var t := "0" + s;
      assert t[..|t| - 1] == "0" + s[..|s| - 1];
      DecimalValueLeadingZero(s[..|s| - 1]);
    }
  }

  /** Appending a digit multiplies the value read so far by ten and adds the digit. */
  lemma DecimalValueSnoc(s: string, c: char)
    requires forall i | 0 <= i < |s| :: IsDigit(s[i])
    requires IsDigit(c)
    ensures DecimalValue(s + [c]) == DecimalValue(s) * 10 + (c as int - '0' as int)
  {
    assert (s + [c])[..|s|] == s;
  }

  /** `int` on a three-digit string. */
  lemma DecimalValueOfThree(a: char, b: char, c: char)
    requires IsDigit(a) && IsDigit(b) && IsDigit(c)
    ensures DecimalValue([a, b, c]) == (a as int - '0' as int) * 100 + (b as int - '0' as int) * 10 + (c as int - '0' as int)
  {
    DecimalValueSnoc([], a);
    DecimalValueSnoc([a], b);
    DecimalValueSnoc([a, b], c);
    assert [] + [a] == [a] && [a] + [b] == [a, b] && [a, b] + [c] == [a, b, c];
  }

  /** `int` on a four-digit string. */
  lemma DecimalValueOfFour(a: char, b: char, c: char, d: char)
    requires IsDigit(a) && IsDigit(b) && IsDigit(c) && IsDigit(d)
    ensures DecimalValue([a, b, c, d]) == DecimalValue([a, b, c]) * 10 + (d as int - '0' as int)
  {
    DecimalValueSnoc([a, b, c], d);
    assert [a, b, c] + [d] == [a, b, c, d];
  }

  /** `raw.startswith('--')` */
  predicate StartsWithDashes(raw: string)
  {
    |raw| >= 2 && raw[0] == '-' && raw[1] == '-'
  }

  /** `s.lstrip('-')`: every leading dash removed. */
  function LStripDashes(s: string): (r: string)
    ensures |r| <= |s| && r == s[|s| - |r|..]
    ensures forall i | 0 <= i < |s| - |r| :: s[i] == '-'
    ensures r == [] || r[0] != '-'
  {
    if s != [] && s[0] == '-' then LStripDashes(s[1..]) else s
  }

  /** `s.index(x)`: the first position holding `x`. */
  function IndexOf<T(==)>(s: seq<T>, x: T): (k: nat)
    requires x in s
    ensures k < |s| && s[k] == x
    ensures forall j | 0 <= j < k :: s[j] != x
  {
    if s[0] == x then 0 else 1 + IndexOf(s[1..], x)
  }

  /** `s.split('=', 1)` for a string that holds '=': the parts before and after the first '='. */
  function SplitAtEquals(s: string): (parts: (string, string))
    requires '=' in s
    ensures s == parts.0 + "=" + parts.1 && '=' !in parts.0
  {
    var k := IndexOf(s, '=');
    assert s == s[..k] + "=" + s[k + 1..];
    (s[..k], s[k + 1..])
  }

  // ----- One argument -----

  /** What one argument does to the parse: nothing, or set the polling rate or the DPI. */
  datatype ArgEffect = NoEffect | SetPolling(hz: int) | SetDpi(dpi: int)

  predicate Supported(e: ArgEffect)
  {
    && (e.SetPolling? ==> e.hz in PollingRates)
    && (e.SetDpi? ==> e.dpi in DpiLevels)
  }

  /** The `--N` form: a rate of the table, else a level of the table; `None` falls through. */
  function BareFlag(raw: string): (r: Option<ArgEffect>)
    ensures r.Some? ==> Supported(r.value) && !r.value.NoEffect?
    ensures r.Some? ==> StartsWithDashes(raw) && IsDigits(raw[2..])
    ensures r.Some? && r.value.SetPolling? ==> r.value.hz == DecimalValue(raw[2..])
    ensures r.Some? && r.value.SetDpi? ==> r.value.dpi == DecimalValue(raw[2..]) && r.value.dpi !in PollingRates
  {
    if StartsWithDashes(raw) && IsDigits(raw[2..]) then
      var v := DecimalValue(raw[2..]);
      if v in PollingRates then Some(SetPolling(v))
      else if v in DpiLevels then Some(SetDpi(v))
      else None
    else None
  }

  /** The `--key=N` form, after stripping every leading dash; `None` falls through. */
  function KeyValueFlag(raw: string): (r: Option<ArgEffect>)
    ensures r.Some? ==> Supported(r.value) && !r.value.NoEffect?
    ensures r.Some? ==> StartsWithDashes(raw) && '=' in raw
    ensures r.Some? && r.value.SetPolling? ==> HasKey(LStripDashes(raw), "poll") || HasKey(LStripDashes(raw), "polling")
    ensures r.Some? && r.value.SetDpi? ==> HasKey(LStripDashes(raw), "dpi")
    ensures r.Some? ==>
      ('=' in LStripDashes(raw)
       && var val := SplitAtEquals(LStripDashes(raw)).1;
       && IsDigits(val)
       && (r.value.SetPolling? ==> r.value.hz == DecimalValue(val))
       && (r.value.SetDpi? ==> r.value.dpi == DecimalValue(val)))
  {
    if StartsWithDashes(raw) && '=' in raw then
      var stripped := LStripDashes(raw);
      LStripKeepsEquals(raw);
      SplitReadsKey(stripped);
      var (key, val) := SplitAtEquals(stripped);
      KeyValueEffect(key, val)
    else None
  }

  /** What `key` and `val` of a `--key=val` argument set; `None` falls through. */
  function KeyValueEffect(key: string, val: string): (r: Option<ArgEffect>)
    ensures r.Some? ==> Supported(r.value) && !r.value.NoEffect? && IsDigits(val)
    ensures r.Some? && r.value.SetPolling? ==> (key == "poll" || key == "polling") && r.value.hz == DecimalValue(val)
    ensures r.Some? && r.value.SetDpi? ==> key == "dpi" && r.value.dpi == DecimalValue(val)
  {
    if IsDigits(val) then
      var n := DecimalValue(val);
      if (key == "poll" || key == "polling") && n in PollingRates then Some(SetPolling(n))
      else if key == "dpi" && n in DpiLevels then Some(SetDpi(n))
      else None
    else None
  }

  /** Stripping dashes keeps every '='. */
  lemma {:induction false} LStripKeepsEquals(raw: string)
    requires '=' in raw
    ensures '=' in LStripDashes(raw)
  {
    if raw[0] == '-' {
      assert '=' in raw[1..] by {
        var k := IndexOf(raw, '=');
        assert raw[1..][k - 1] == '=';
      }
      LStripKeepsEquals(raw[1..]);
    }
  }

  /** The part before the first '=' is a key that `s` reads. */
  lemma SplitReadsKey(s: string)
    requires '=' in s
    ensures HasKey(s, SplitAtEquals(s).0)
  {
    var (key, val) := SplitAtEquals(s);
    assert s[..|key|] == key;
  }

  /** `s` reads `key=` followed by the value. */
  predicate HasKey(s: string, key: string)
  {
    |s| > |key| && s[..|key|] == key && s[|key|] == '='
  }

  predicate IsPollingFlag(raw: string)
  {
    raw == "-p" || raw == "--poll"
  }

  predicate IsDpiFlag(raw: string)
  {
    raw == "-d" || raw == "--dpi"
  }

  /**
    The flag-then-value form.  The value is read after the FIRST occurrence of
    the flag in the whole argument list, and a flag in last position reads
    nothing.
  */
  function SeparateFlag(argv: seq<string>, raw: string): (e: ArgEffect)
    requires raw in argv
    ensures Supported(e)
    ensures !e.NoEffect? ==> IsPollingFlag(raw) || IsDpiFlag(raw)
    ensures IsPollingFlag(raw) ==> !e.SetDpi?
    ensures IsDpiFlag(raw) ==> !e.SetPolling?
    ensures !e.NoEffect? ==>
      var k := IndexOf(argv, raw);
      && k + 1 < |argv| && IsDigits(argv[k + 1])
      && (e.SetPolling? ==> e.hz == DecimalValue(argv[k + 1]))
      && (e.SetDpi? ==> e.dpi == DecimalValue(argv[k + 1]))
  {
    if IsPollingFlag(raw) || IsDpiFlag(raw) then
      var k := IndexOf(argv, raw);
      if k + 1 < |argv| && IsDigits(argv[k + 1]) then
        var n := DecimalValue(argv[k + 1]);
        if IsPollingFlag(raw) && n in PollingRates then SetPolling(n)
        else if IsDpiFlag(raw) && n in DpiLevels then SetDpi(n)
        else NoEffect
      else NoEffect
    else NoEffect
  }

  /** The effect of `argv[i]`, trying the three forms in the order `parse_args` does. */
  function ArgEffectAt(argv: seq<string>, i: nat): (e: ArgEffect)
    requires 1 <= i < |argv|
    ensures Supported(e)
  {
    var raw := argv[i];
    if raw == "" then NoEffect
    else match BareFlag(raw)
      case Some(e) => e
      case None =>
        match KeyValueFlag(raw)
        case Some(e) => e
        case None => SeparateFlag(argv, raw)
  }

  /** Stripping a run of dashes from the front of a string that does not start with one. */
  lemma {:induction false} LStripDashesPrefix(dashes: string, t: string)
    requires forall j | 0 <= j < |dashes| :: dashes[j] == '-'
    requires t == [] || t[0] != '-'
    ensures LStripDashes(dashes + t) == t
  {
    if dashes != [] {
      assert (dashes + t)[1..] == dashes[1..] + t;
      LStripDashesPrefix(dashes[1..], t);
    }
  }

  /** The split at the first '=' is the only one whose left part holds no '='. */
  lemma SplitAtEqualsOf(key: string, val: string)
    requires '=' !in key
    ensures '=' in key + "=" + val
    ensures SplitAtEquals(key + "=" + val) == (key, val)
  {
    var s := key + "=" + val;
    assert s[|key|] == '=';
    var (a, b) := SplitAtEquals(s);
    assert |a| == |key|;
    assert a == s[..|a|] == key;
    assert b == s[|a| + 1..] == val;
  }

  /**
    An argument `--N` with `N` a digit string sets the rate `N` when the rate
    table holds it, else the level `N` when the level table does, and
    otherwise does nothing.
  */
  lemma BareFormEffect(argv: seq<string>, i: nat, digits: string)
    requires 1 <= i < |argv| && argv[i] == "--" + digits && IsDigits(digits)
    ensures var v := DecimalValue(digits);
      ArgEffectAt(argv, i) ==
        if v in PollingRates then SetPolling(v)
        else if v in DpiLevels then SetDpi(v)
        else NoEffect
  {
    var raw := argv[i];
    assert raw[2..] == digits;
    assert '=' !in raw by {
      forall j | 0 <= j < |raw| ensures raw[j] != '=' {
        if j >= 2 { assert raw[j] == digits[j - 2]; }
      }
    }
    assert raw[2] == digits[0] && IsDigit(digits[0]);
  }

  /**
    An argument `--key=N` (any number of leading dashes, at least two) with
    `N` a digit string sets the rate `N` for the keys `poll` and `polling`
    and the level `N` for the key `dpi`, each only when its table holds `N`;
    any other combination does nothing.
  */
  lemma KeyValueFormEffect(argv: seq<string>, i: nat, dashes: string, key: string, val: string)
    requires 1 <= i < |argv| && argv[i] == dashes + key + "=" + val
    requires |dashes| >= 2 && forall j | 0 <= j < |dashes| :: dashes[j] == '-'
    requires key == "poll" || key == "polling" || key == "dpi"
    requires IsDigits(val)
    ensures var n := DecimalValue(val);
      ArgEffectAt(argv, i) ==
        if (key == "poll" || key == "polling") && n in PollingRates then SetPolling(n)
        else if key == "dpi" && n in DpiLevels then SetDpi(n)
        else NoEffect
  {
    var raw := argv[i];
    assert raw[|dashes| + |key|] == '=';
    assert !IsDigits(raw[2..]) by {
      assert raw[2..][|dashes| + |key| - 2] == '=';
    }
    assert BareFlag(raw) == None;
    KeyValueFlagOf(raw, dashes, key, val);
  }

  lemma KeyValueFlagOf(raw: string, dashes: string, key: string, val: string)
    requires raw == dashes + key + "=" + val
    requires |dashes| >= 2 && forall j | 0 <= j < |dashes| :: dashes[j] == '-'
    requires key == "poll" || key == "polling" || key == "dpi"
    requires IsDigits(val)
    ensures var n := DecimalValue(val);
      KeyValueFlag(raw) ==
        if (key == "poll" || key == "polling") && n in PollingRates then Some(SetPolling(n))
        else if key == "dpi" && n in DpiLevels then Some(SetDpi(n))
        else None
  {
    var rest := key + "=" + val;
    assert raw == dashes + rest;
    assert raw[|dashes| + |key|] == '=';
    assert raw[0] == dashes[0] && raw[1] == dashes[1];
    LStripDashesPrefix(dashes, rest);
    KeyValueFlagOfStripped(raw, key, val);
  }

  lemma KeyValueFlagOfStripped(raw: string, key: string, val: string)
    requires StartsWithDashes(raw) && '=' in raw
    requires LStripDashes(raw) == key + "=" + val
    requires key == "poll" || key == "polling" || key == "dpi"
    requires IsDigits(val)
    ensures var n := DecimalValue(val);
      KeyValueFlag(raw) ==
        if (key == "poll" || key == "polling") && n in PollingRates then Some(SetPolling(n))
        else if key == "dpi" && n in DpiLevels then Some(SetDpi(n))
        else None
  {
    SplitAtEqualsOf(key, val);
  }

  /**
    A flag `-p`/`--poll` (`-d`/`--dpi`) sets the rate (level) read from the
    argument after the flag's FIRST occurrence, when that argument is a
    digit string the table holds, and otherwise does nothing.
  */
  lemma SeparateFormEffect(argv: seq<string>, i: nat)
    requires 1 <= i < |argv| && (IsPollingFlag(argv[i]) || IsDpiFlag(argv[i]))
    ensures var k := IndexOf(argv, argv[i]);
      && (k + 1 < |argv| && IsDigits(argv[k + 1]) && IsPollingFlag(argv[i]) && DecimalValue(argv[k + 1]) in PollingRates
          ==> ArgEffectAt(argv, i) == SetPolling(DecimalValue(argv[k + 1])))
      && (k + 1 < |argv| && IsDigits(argv[k + 1]) && IsDpiFlag(argv[i]) && DecimalValue(argv[k + 1]) in DpiLevels
          ==> ArgEffectAt(argv, i) == SetDpi(DecimalValue(argv[k + 1])))
      && (ArgEffectAt(argv, i) == NoEffect <==>
          !(k + 1 < |argv| && IsDigits(argv[k + 1])
            && ((IsPollingFlag(argv[i]) && DecimalValue(argv[k + 1]) in PollingRates)
                || (IsDpiFlag(argv[i]) && DecimalValue(argv[k + 1]) in DpiLevels))))
  {
    var raw := argv[i];
    assert '=' !in raw;
    if |raw| > 2 {
      assert !IsDigit(raw[2..][0]);
    }
  }

  // ----- The whole argument list -----

  /** The number of arguments after the program name (`len(argv[1:])`). */
  function ArgCount(argv: seq<string>): nat
  {
    if argv == [] then 0 else |argv| - 1
  }

  /** The effects of `argv[1:]`, in order. */
  function ArgEffects(argv: seq<string>): (effects: seq<ArgEffect>)
    ensures |effects| == ArgCount(argv)
    ensures forall k | 0 <= k < |effects| :: effects[k] == ArgEffectAt(argv, k + 1)
    ensures forall k | 0 <= k < |effects| :: Supported(effects[k])
  {
    seq(ArgCount(argv), k requires 0 <= k < ArgCount(argv) => ArgEffectAt(argv, k + 1))
  }

  /** The rate set by the last effect that sets one, if any. */
  function LastPolling(effects: seq<ArgEffect>): (r: Option<int>)
    ensures r.Some? ==> exists k | 0 <= k < |effects| :: effects[k] == SetPolling(r.value)
  {
    if effects == [] then None
    else match effects[|effects| - 1]
      case SetPolling(hz) => Some(hz)
      case _ => LastPolling(effects[..|effects| - 1])
  }

  /** Effect `k` sets the rate to `hz` and no later effect sets a rate. */
  predicate IsLastPollingSet(effects: seq<ArgEffect>, k: nat, hz: int)
  {
    && k < |effects|
    && effects[k] == SetPolling(hz)
    && forall j | k < j < |effects| :: !effects[j].SetPolling?
  }

  /** The parsed rate is `hz` exactly when the last effect that sets a rate sets `hz`. */
  lemma {:induction false} LastPollingWins(effects: seq<ArgEffect>, hz: int)
    ensures LastPolling(effects) == Some(hz) <==> exists k: nat :: IsLastPollingSet(effects, k, hz)
  {
    if effects != [] {
      var n := |effects| - 1;
      var init := effects[..n];
      LastPollingWins(init, hz);
      if effects[n] == SetPolling(hz) {
        assert IsLastPollingSet(effects, n, hz);
      } else if effects[n].SetPolling? {
        forall k: nat | IsLastPollingSet(effects, k, hz)
          ensures false
        {
        }
      } else if LastPolling(init) == Some(hz) {
        var k: nat :| IsLastPollingSet(init, k, hz);
        assert IsLastPollingSet(effects, k, hz);
      } else {
        forall k: nat | IsLastPollingSet(effects, k, hz)
          ensures false
        {
          assert IsLastPollingSet(init, k, hz);
        }
      }
    }
  }

  /** No rate is parsed exactly when no effect sets one. */
  lemma {:induction false} LastPollingAbsent(effects: seq<ArgEffect>)
    ensures LastPolling(effects).None? <==> forall k | 0 <= k < |effects| :: !effects[k].SetPolling?
  {
    if effects != [] {
      var n := |effects| - 1;
      LastPollingAbsent(effects[..n]);
      assert forall k | 0 <= k < n :: effects[..n][k] == effects[k];
    }
  }

  /** The level set by the last effect that sets one, if any. */
  function LastDpi(effects: seq<ArgEffect>): (r: Option<int>)
    ensures r.Some? ==> exists k | 0 <= k < |effects| :: effects[k] == SetDpi(r.value)
  {
    if effects == [] then None
    else match effects[|effects| - 1]
      case SetDpi(dpi) => Some(dpi)
      case _ => LastDpi(effects[..|effects| - 1])
  }

  /** Effect `k` sets the level to `dpi` and no later effect sets a level. */
  predicate IsLastDpiSet(effects: seq<ArgEffect>, k: nat, dpi: int)
  {
    && k < |effects|
    && effects[k] == SetDpi(dpi)
    && forall j | k < j < |effects| :: !effects[j].SetDpi?
  }

  /** The parsed level is `dpi` exactly when the last effect that sets a level sets `dpi`. */
  lemma {:induction false} LastDpiWins(effects: seq<ArgEffect>, dpi: int)
    ensures LastDpi(effects) == Some(dpi) <==> exists k: nat :: IsLastDpiSet(effects, k, dpi)
  {
    if effects != [] {
      var n := |effects| - 1;
      var init := effects[..n];
      LastDpiWins(init, dpi);
      if effects[n] == SetDpi(dpi) {
        assert IsLastDpiSet(effects, n, dpi);
      } else if effects[n].SetDpi? {
        forall k: nat | IsLastDpiSet(effects, k, dpi)
          ensures false
        {
        }
      } else if LastDpi(init) == Some(dpi) {
        var k: nat :| IsLastDpiSet(init, k, dpi);
        assert IsLastDpiSet(effects, k, dpi);
      } else {
        forall k: nat | IsLastDpiSet(effects, k, dpi)
          ensures false
        {
          assert IsLastDpiSet(init, k, dpi);
        }
      }
    }
  }

  /** No level is parsed exactly when no effect sets one. */
  lemma {:induction false} LastDpiAbsent(effects: seq<ArgEffect>)
    ensures LastDpi(effects).None? <==> forall k | 0 <= k < |effects| :: !effects[k].SetDpi?
  {
    if effects != [] {
      var n := |effects| - 1;
      LastDpiAbsent(effects[..n]);
      assert forall k | 0 <= k < n :: effects[..n][k] == effects[k];
    }
  }

  /** `parse_args`: scan `argv[1:]`, each accepted argument overwriting the earlier value. */
  method ParseArgs(argv: seq<string>) returns (polling: Option<int>, dpi: Option<int>)
    ensures polling == LastPolling(ArgEffects(argv))
    ensures dpi == LastDpi(ArgEffects(argv))
    ensures polling.Some? ==> polling.value in PollingRates && polling.value != 125
    ensures dpi.Some? ==> dpi.value in DpiLevels
  {
    ghost var effects := ArgEffects(argv);
    polling, dpi := None, None;
    var i := 1;
    while i < |argv|
      invariant 1 <= i && i - 1 <= |effects|
      invariant polling == LastPolling(effects[..i - 1])
      invariant dpi == LastDpi(effects[..i - 1])
    {
      assert effects[..i][..i - 1] == effects[..i - 1];
      match ArgEffectAt(argv, i) {
        case SetPolling(hz) =>
          polling := Some(hz);
        case SetDpi(d) =>
          dpi := Some(d);
        case NoEffect =>
      }
      i := i + 1;
    }
    assert effects[..i - 1] == effects;
  }

  /** `--1000` sets the rate. */
  lemma BareRateFlag()
    ensures ArgEffectAt(["aria", "--1000"], 1) == SetPolling(1000)
  {
    var raw := "--1000";
    assert raw[2..] == "1000";
    DecimalValueOfThree('1', '0', '0'); DecimalValueOfFour('1', '0', '0', '0');
    assert BareFlag(raw) == Some(SetPolling(1000));
  }

  /** `--3200` is no rate of the table, so it sets the level. */
  lemma BareLevelFlag()
    ensures ArgEffectAt(["aria", "--3200"], 1) == SetDpi(3200)
  {
    var raw := "--3200";
    assert raw[2..] == "3200";
    DecimalValueOfThree('3', '2', '0'); DecimalValueOfFour('3', '2', '0', '0');
    assert BareFlag(raw) == Some(SetDpi(3200));
  }

  /** `--125` sets nothing: 125 is in neither table, and no other form matches. */
  lemma BareFlag125()
    ensures ArgEffectAt(["aria", "--125"], 1) == NoEffect
  {
    var raw := "--125";
    assert raw[2..] == "125";
    DecimalValueOfThree('1', '2', '5');
    assert BareFlag(raw) == None;
    assert '=' !in raw;
    assert KeyValueFlag(raw) == None;
  }

  /** `lstrip('-')` removes every leading dash, so `---dpi=800` is read as `dpi=800`. */
  lemma KeyValueStripsAllDashes()
    ensures ArgEffectAt(["aria", "---dpi=800"], 1) == SetDpi(800)
  {
    assert "---dpi=800" == "---" + "dpi" + "=" + "800";
    DecimalValueOfThree('8', '0', '0');
    KeyValueFormEffect(["aria", "---dpi=800"], 1, "---", "dpi", "800");
  }

  /**
    A repeated `-p` reads the value after its first occurrence both times,
    so `-p 250 -p 500` leaves the rate at 250.
  */
  lemma RepeatedFlagReadsFirstValue()
    ensures LastPolling(ArgEffects(["aria", "-p", "250", "-p", "500"])) == Some(250)
  {
    var argv := ["aria", "-p", "250", "-p", "500"];
    assert IndexOf(argv, "-p") == 1;
    DecimalValueOfThree('2', '5', '0');
    assert !StartsWithDashes(argv[1]) && !StartsWithDashes(argv[2]) && !StartsWithDashes(argv[4]);
    assert ArgEffectAt(argv, 3) == SetPolling(250);
    assert ArgEffectAt(argv, 4) == NoEffect;
    var effects := ArgEffects(argv);
    assert effects[..3][2] == SetPolling(250);
  }

  // ----- Menu fallbacks -----

  /** The polling menu's `poll_map`: choice 1 is 125 Hz, which the table does not hold. */
  const PollingMenu: map<int, int> := map[1 := 125, 2 := 250, 3 := 500, 4 := 1000]

  /** The rate used when the menu choice is missing or not one of the numbers offered. */
  const DefaultPollingRate: int := 250

  /** `escolher_polling_interativo`, from the parsed choice (`None` when `int()` raised). */
  function PollingMenuChoice(choice: Option<int>): (hz: int)
    ensures hz == 125 || hz in PollingRates
    ensures hz == 125 <==> choice == Some(1)
  {
    match choice
    case None => DefaultPollingRate
    case Some(c) => if c in PollingMenu then PollingMenu[c] else DefaultPollingRate
  }

  /**
    The polling menu in closed form: choices 1 to 4 give 125, 250, 500 and
    1000 Hz; a missing or unlisted choice gives 250.
  */
  lemma PollingMenuMapping(choice: Option<int>)
    ensures choice.Some? && 1 <= choice.value <= 4 ==>
      PollingMenuChoice(choice) == [125, 250, 500, 1000][choice.value - 1]
    ensures !(choice.Some? && 1 <= choice.value <= 4) ==> PollingMenuChoice(choice) == 250
  {
  }

  /** `sorted(DPI_MAP.keys())`: the DPI menu's entries, numbered from 1. */
  const DpiMenu: seq<int> := [800, 1600, 3200, 8000]

  /** The menu lists exactly the table's levels, strictly increasing. */
  lemma DpiMenuIsSortedKeys()
    ensures forall i, j | 0 <= i < j < |DpiMenu| :: DpiMenu[i] < DpiMenu[j]
    ensures forall d :: d in DpiMenu <==> d in DpiLevels
  {
  }

  /** `items[k]` with Python's indexing: negative `k` counts from the end; `None` where IndexError. */
  function PyIndex<T>(items: seq<T>, k: int): (r: Option<T>)
    ensures r.Some? <==> -|items| <= k < |items|
    ensures r.Some? ==> r.value in items && r.value == items[k % |items|]
  {
    if 0 <= k < |items| then Some(items[k])
    else if -|items| <= k < 0 then Some(items[|items| + k])
    else None
  }

  /** `escolher_dpi_interativo`: `items[idx-1]`, or `items[2]` when that raises or the choice is missing. */
  function DpiMenuChoice(choice: Option<int>): (dpi: int)
    ensures dpi in DpiLevels
  {
    var fallback := DpiMenu[2];
    match choice
    case None => fallback
    case Some(c) =>
      match PyIndex(DpiMenu, c - 1)
      case Some(d) => d
      case None => fallback
  }

  /**
    Choices 1 to 4 pick the menu entries in order; through negative indexing
    the choices 0 down to -3 pick them again from the end (0 gives 8000);
    every other choice falls back to 3200.
  */
  lemma DpiMenuChoiceWraps(c: int)
    ensures -3 <= c <= 4 ==> DpiMenuChoice(Some(c)) == DpiMenu[(c - 1) % 4]
    ensures !(-3 <= c <= 4) ==> DpiMenuChoice(Some(c)) == 3200
    ensures DpiMenuChoice(Some(0)) == 8000
  {
  }
}
