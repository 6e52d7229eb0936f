/** The `/radiation` chat command: sub-command dispatch, the replies, the
    status line and its countdown format. */
module RadiationCommand {
  import opened Common
  import opened Text
  import opened Settings
  import opened Storm

  const Syntax := "/radiation <start|stop|status>"

  /** A countdown of `total` whole seconds: `MM:SS` under an hour, otherwise
      `HH:MM:SS` with the hours counted in full (not wrapped at a day). */
  function FormatDuration(total: nat): (s: string)
    ensures forall i :: 0 <= i < |s| ==> IsDigit(s[i]) || s[i] == ':'
    ensures total < 3600 ==> |s| == 5 && s[2] == ':'
    ensures total >= 3600 ==> |s| >= 8 && s[|s| - 3] == ':' && s[|s| - 6] == ':'
  {
    var minutes := (total / 60) % 60;
    var seconds := total % 60;
    if total >= 3600 then Pad2(total / 3600) + ":" + Pad2(minutes) + ":" + Pad2(seconds)
    else Pad2(minutes) + ":" + Pad2(seconds)
  }

  /** Reads a countdown back: `H:M:S` or `M:S`, each field decimal. */
  function ParseDuration(s: string): Option<nat>
  {
    var fields := Split(s, ':');
    if |fields| == 3 then Some(ParseDecimal(fields[0]) * 3600 + ParseDecimal(fields[1]) * 60 + ParseDecimal(fields[2]))
    else if |fields| == 2 then Some(ParseDecimal(fields[0]) * 60 + ParseDecimal(fields[1]))
    else None
  }

  lemma PadHasNoColon(n: nat)
    ensures ':' !in Pad2(n)
  {
  }

  /** The fields of a countdown: hours (only from one hour on), then minutes
      and seconds, each below 60; every field has at least two digits. */
  lemma {:induction false} FormatDurationFields(total: nat)
    ensures total < 3600 ==>
      Split(FormatDuration(total), ':') == [Pad2(total / 60), Pad2(total % 60)] && total / 60 < 60
    ensures total >= 3600 ==>
      Split(FormatDuration(total), ':') == [Pad2(total / 3600), Pad2((total / 60) % 60), Pad2(total % 60)]
    ensures (total / 60) % 60 < 60 && total % 60 < 60
    ensures total < 3600 ==> |FormatDuration(total)| == 5
    ensures total >= 3600 && total / 3600 < 100 ==> |FormatDuration(total)| == 8
  {
    var m := (total / 60) % 60;
    var sec := total % 60;
    PadHasNoColon(m);
    PadHasNoColon(sec);
    SplitNoSeparator(Pad2(sec), ':');
    SplitAtSeparator(Pad2(m), ':', Pad2(sec));
    if total >= 3600 {
      var h := total / 3600;
      PadHasNoColon(h);
      assert FormatDuration(total) == Pad2(h) + [':'] + (Pad2(m) + [':'] + Pad2(sec));
      SplitAtSeparator(Pad2(h), ':', Pad2(m) + [':'] + Pad2(sec));
    } else {
      assert total / 60 < 60;
      assert m == total / 60;
      assert FormatDuration(total) == Pad2(m) + [':'] + Pad2(sec);
    }
  }

  lemma HourMinuteSecond(total: nat)
    ensures (total / 3600) * 3600 + ((total / 60) % 60) * 60 + total % 60 == total
  {
    var q := total / 60;
    assert q * 60 + total % 60 == total;
    assert (q / 60) * 60 + q % 60 == q;
    assert q / 60 == total / 3600;
  }

  /** Reading a countdown back gives the number of seconds it was made from. */
  lemma FormatDurationRoundTrip(total: nat)
    ensures ParseDuration(FormatDuration(total)) == Some(total)
  {
    FormatDurationFields(total);
    if total >= 3600 {
      LongRoundTrip(total);
    } else {
      ShortRoundTrip(total);
    }
  }

  lemma LongRoundTrip(total: nat)
    requires total >= 3600
    requires Split(FormatDuration(total), ':') == [Pad2(total / 3600), Pad2((total / 60) % 60), Pad2(total % 60)]
    ensures ParseDuration(FormatDuration(total)) == Some(total)
  {
    var h, m, sec := total / 3600, (total / 60) % 60, total % 60;
    var fields := Split(FormatDuration(total), ':');
    Pad2RoundTrip(h);
    Pad2RoundTrip(m);
    Pad2RoundTrip(sec);
    assert ParseDecimal(fields[0]) == h && ParseDecimal(fields[1]) == m && ParseDecimal(fields[2]) == sec;
    HourMinuteSecond(total);
  }

  lemma ShortRoundTrip(total: nat)
    requires total < 3600
    requires Split(FormatDuration(total), ':') == [Pad2(total / 60), Pad2(total % 60)]
    ensures ParseDuration(FormatDuration(total)) == Some(total)
  {
    var m, sec := total / 60, total % 60;
    var fields := Split(FormatDuration(total), ':');
    Pad2RoundTrip(m);
    Pad2RoundTrip(sec);
    assert ParseDecimal(fields[0]) == m && ParseDecimal(fields[1]) == sec;
  }

  /** A day and an hour reads as 25 hours. */
  lemma HoursAreNotWrapped()
    ensures FormatDuration(90000) == "25:00:00"
  {
    assert Decimal(25) == "25" by {
      assert Decimal(2) == "2";
      assert Decimal(5) == "5";
    }
    assert Pad2(0) == "00";
  }

  function StateWord(active: bool): string
  {
    if active then "active" else "inactive"
  }

  /** The countdown is shown only while idle, with automatic storms on, a
      scheduled time, and that time still ahead. */
  predicate ShowsCountdown(cfg: Config, s: Plugin, now: Instant)
  {
    !s.stormActive && cfg.autoStormEnabled && s.nextStormTime.Some? && s.nextStormTime.value - now > 0.0
  }

  /** The reply to `status` at clock reading `now`. */
  function StatusMessage(cfg: Config, s: Plugin, now: Instant): (msg: string)
    ensures var head := Translate(StormStatus, StateWord(s.stormActive));
      && |head| <= |msg| && msg[..|head|] == head
      && (ShowsCountdown(cfg, s, now) <==> |head| < |msg|)
  {
    var head := Translate(StormStatus, StateWord(s.stormActive));
    if ShowsCountdown(cfg, s, now) then
      var remaining := s.nextStormTime.value - now;
      head + " " + Translate(StormNext, FormatDuration(remaining.Floor as nat))
    else head
  }

  /** `Execute`: the reply sent to the caller and the controller afterwards. */
  function Execute(cfg: Config, s: Plugin, env: Env, args: seq<string>): (r: (string, Plugin))
    ensures r.1 == s || r.1 == Step(cfg, s, env, Start) || r.1 == Step(cfg, s, env, Stop)
  {
    if |args| == 0 then (Syntax, s)
    else
      var sub := Lower(args[0]);
      if sub == "start" then
        match StartStorm(cfg, s, env)
        case Success(t) => (Translate(StormStart, ""), t)
        case Failure(e) => (Translate(ErrorKey(e), ""), s)
      else if sub == "stop" then
        match StopStorm(cfg, s, env)
        case Success(t) => (Translate(StormStop, ""), t)
        case Failure(e) => (Translate(ErrorKey(e), ""), s)
      else if sub == "status" then (StatusMessage(cfg, s, env.world.now), s)
      else (Syntax, s)
  }

  predicate Known(sub: string)
  {
    sub == "start" || sub == "stop" || sub == "status"
  }

  /** No argument, or one that is not a sub-command, gets the usage line and
      changes nothing. */
  lemma UsageOnUnknown(cfg: Config, s: Plugin, env: Env, args: seq<string>)
    requires |args| == 0 || !Known(Lower(args[0]))
    ensures Execute(cfg, s, env, args) == (Syntax, s)
  {
  }

  /** Sub-commands match in any letter case, and only the first argument
      matters. */
  lemma CaseInsensitive(cfg: Config, s: Plugin, env: Env, a: seq<string>, b: seq<string>)
    requires |a| > 0 && |b| > 0 && Lower(a[0]) == Lower(b[0])
    ensures Execute(cfg, s, env, a) == Execute(cfg, s, env, b)
  {
  }

  /** `start` starts an idle storm with the start reply; on a running storm it
      answers with the already-active message and changes nothing. */
  lemma StartReplies(cfg: Config, s: Plugin, env: Env, args: seq<string>)
    requires |args| > 0 && Lower(args[0]) == "start"
    ensures s.stormActive ==> Execute(cfg, s, env, args) == ("Radiation storm is already active.", s)
    ensures !s.stormActive ==>
      Execute(cfg, s, env, args) == ("Radiation storm has begun!", Step(cfg, s, env, Start))
      && Step(cfg, s, env, Start).stormActive
  {
  }

  /** `stop` ends a running storm with the stop reply; when idle it answers
      with the not-active message and changes nothing. */
  lemma StopReplies(cfg: Config, s: Plugin, env: Env, args: seq<string>)
    requires |args| > 0 && Lower(args[0]) == "stop"
    ensures !s.stormActive ==> Execute(cfg, s, env, args) == ("No active radiation storm.", s)
    ensures s.stormActive ==>
      Execute(cfg, s, env, args) == ("Radiation storm has ended.", Step(cfg, s, env, Stop))
      && !Step(cfg, s, env, Stop).stormActive
  {
  }

  /** `status` leaves the controller alone and replies with the status line. */
  lemma StatusReplies(cfg: Config, s: Plugin, env: Env, args: seq<string>)
    requires |args| > 0 && Lower(args[0]) == "status"
    ensures Execute(cfg, s, env, args) == (StatusMessage(cfg, s, env.world.now), s)
  {
  }

  /** The status line reads the state and, when the countdown shows (so the
      state is "inactive"), a space and the next-storm line with the whole
      seconds left. */
  lemma StatusText(cfg: Config, s: Plugin, now: Instant)
    ensures !ShowsCountdown(cfg, s, now) ==>
      StatusMessage(cfg, s, now) == "Radiation storm is currently " + StateWord(s.stormActive) + "."
    ensures ShowsCountdown(cfg, s, now) ==>
      StatusMessage(cfg, s, now) == "Radiation storm is currently " + StateWord(false) + "." + " "
        + ("Next radiation storm in " + FormatDuration((s.nextStormTime.value - now).Floor as nat) + ".")
  {
    if ShowsCountdown(cfg, s, now) {
      CountdownText(cfg, s, now);
    }
  }

  /** The status line while the countdown shows. */
  lemma CountdownText(cfg: Config, s: Plugin, now: Instant)
    requires ShowsCountdown(cfg, s, now)
    ensures StatusMessage(cfg, s, now) == "Radiation storm is currently " + StateWord(false) + "." + " "
        + ("Next radiation storm in " + FormatDuration((s.nextStormTime.value - now).Floor as nat) + ".")
  {
  }
}
