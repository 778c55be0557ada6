// Whole runs of one stream's sender: what it emits, and that it falls silent after FIN or RST_STREAM.
module Termination {
  import opened Common
  import opened Frames
  import opened Streams
  import Framer

  // Flags of the error parameters say whether the error is non-nil.
  datatype Event =
    | Write(data: seq<Byte>)
    | Send(maxBytes: nat, window: nat)
    | Close
    | Cancel(err: bool)
    | Reset(err: bool)
    | RemoteError(err: bool)
    | ReadFin

  datatype Emitted = Nothing | Sent(frame: Frame) | Rst(offset: nat)

  function Apply(s: StreamState, e: Event): (StreamState, Emitted)
  {
    match e
    case Write(p) => (Written(s, p), Nothing)
    case Send(maxBytes, window) =>
      var r := Framer.Send(s, maxBytes, window);
      (r.stream, if r.frame.Some? then Sent(r.frame.value) else Nothing)
    case Close => (s.(finishedWriting := true), Nothing)
    case Cancel(err) => (s.(cancelled := true, err := s.err || err), Nothing)
    case Reset(err) =>
      var (s', rst) := ResetLocally(s, err);
      (s', if rst.Some? then Rst(rst.value) else Nothing)
    case RemoteError(err) =>
      var (s', rst) := ResetRemotely(s, err);
      (s', if rst.Some? then Rst(rst.value) else Nothing)
    case ReadFin => (s.(finishedReading := true), Nothing)
  }

  function Run(s: StreamState, events: seq<Event>): StreamState
    decreases |events|
  {
    if events == [] then s else Run(Apply(s, events[0]).0, events[1..])
  }

  function Emissions(s: StreamState, events: seq<Event>): (out: seq<Emitted>)
    ensures |out| == |events|
    decreases |events|
  {
    if events == [] then [] else
    var (s', x) := Apply(s, events[0]);
    [x] + Emissions(s', events[1..])
  }

  // The error of a reset is not nil.
  predicate HasError(e: Event)
  {
    e.Reset? || e.RemoteError? ==> e.err
  }

  predicate Terminal(x: Emitted)
  {
    x.Rst? || (x.Sent? && x.frame.fin)
  }

  // Bytes of data emitted.
  function DataLength(out: seq<Emitted>): nat
  {
    if out == [] then 0 else (if out[0].Sent? then |out[0].frame.data| else 0) + DataLength(out[1..])
  }

  // What every reset with an error, and every other event, keeps.
  predicate Sound(s: StreamState)
  {
    && (s.finSent ==> s.finishedWriting && s.pending.None?)
    && (s.resetLocally || s.resetRemotely || s.rstSent ==> s.err)
  }

  predicate Silent(s: StreamState)
  {
    Sound(s) && (s.finSent || s.rstSent)
  }

  // Sending: without a frame nothing changes, and a frame takes its data off the front of what is pending.
  lemma ApplySend(s: StreamState, maxBytes: nat, window: nat)
    ensures var (s', x) := Apply(s, Send(maxBytes, window));
      match x
      case Nothing => s' == s
      case Rst(_) => false
      case Sent(f) =>
        && f.streamID == s.id && f.offset == s.writeOffset && !s.err
        && Framer.Unsent(s.pending) == f.data + Framer.Unsent(s'.pending)
        && (s.pending.None? ==> f.fin)
        && (f.fin ==> s.finishedWriting && !s.finSent && s'.pending.None?)
        && s' == s.(writeOffset := f.End(), pending := s'.pending, finSent := s.finSent || f.fin)
  {
    hide Framer.Send, Framer.Unsent;
    Framer.SendFacts(s, maxBytes, window);
  }

  // Every other event.
  lemma ApplyOther(s: StreamState, e: Event)
    requires !e.Send?
    ensures var (s', x) := Apply(s, e);
      match e
      case Write(_) => x == Nothing && s' == s.(pending := s'.pending) && (s.finishedWriting ==> s' == s)
      case Send(_, _) => false
      case Close => x == Nothing && s' == s.(finishedWriting := true)
      case Cancel(err) => x == Nothing && s' == s.(cancelled := true, err := s.err || err)
      case Reset(err) =>
        && (x == if s.resetLocally || s.rstSent || s.FinishedWriteAndSentFin() then Nothing else Rst(s.writeOffset))
        && s' == s.(resetLocally := true, err := s.err || (err && !s.resetLocally), rstSent := s.rstSent || x.Rst?)
      case RemoteError(err) =>
        && (x == if s.resetRemotely || s.rstSent || s.FinishedWriteAndSentFin() then Nothing else Rst(s.writeOffset))
        && s' == s.(resetRemotely := true, err := s.err || (err && !s.resetRemotely), rstSent := s.rstSent || x.Rst?)
      case ReadFin => x == Nothing && s' == s.(finishedReading := true)
  {
    hide ResetLocally, ResetRemotely, Framer.Send;
    if e.Reset? || e.RemoteError? { ResetExact(s, e.err); }
  }

  lemma ApplySound(s: StreamState, e: Event)
    requires Sound(s) && HasError(e)
    ensures var (s', x) := Apply(s, e);
      && Sound(s')
      && (Silent(s) ==> Silent(s') && x == Nothing)
      && (Terminal(x) ==> Silent(s'))
  {
    hide Apply;
    if e.Send? { ApplySend(s, e.maxBytes, e.window); } else { ApplyOther(s, e); }
  }

  /** What Write reports is what was framed of its data: in every run without another Write, the bytes
      framed since and those still pending add up to the data handed over. */
  lemma {:induction false} WriteCounts(s: StreamState, events: seq<Event>)
    requires forall i :: 0 <= i < |events| ==> !events[i].Write?
    ensures var s' := Run(s, events);
      s'.writeOffset + |Framer.Unsent(s'.pending)| == s.writeOffset + |Framer.Unsent(s.pending)|
    decreases |events|
  {
    hide Apply, Framer.Unsent;
    if events != [] {
      ApplyCounts(s, events[0]);
      WriteCounts(Apply(s, events[0]).0, events[1..]);
    }
  }

  lemma ApplyCounts(s: StreamState, e: Event)
    requires !e.Write?
    ensures var s' := Apply(s, e).0;
      s'.writeOffset + |Framer.Unsent(s'.pending)| == s.writeOffset + |Framer.Unsent(s.pending)|
  {
    hide Apply, Framer.Unsent;
    if e.Send? { ApplySend(s, e.maxBytes, e.window); } else { ApplyOther(s, e); }
  }

  // Offsets follow the data, and a reset announces how much of it there was.
  lemma ApplyOffset(s: StreamState, e: Event)
    ensures var (s', x) := Apply(s, e);
      && (x.Sent? ==> x.frame.streamID == s.id && x.frame.offset == s.writeOffset)
      && (x.Rst? ==> x.offset == s.writeOffset)
      && s'.writeOffset == s.writeOffset + (if x.Sent? then |x.frame.data| else 0)
      && s'.id == s.id
  {
    hide Apply;
    if e.Send? { ApplySend(s, e.maxBytes, e.window); } else { ApplyOther(s, e); }
  }

  lemma ApplyFinished(s: StreamState, e: Event)
    requires s.Finished()
    ensures Apply(s, e).0.Finished()
  {
    hide Apply;
    if e.Send? { ApplySend(s, e.maxBytes, e.window); } else { ApplyOther(s, e); }
  }

  lemma {:induction false} SilentForever(s: StreamState, events: seq<Event>)
    requires Silent(s) && forall i :: 0 <= i < |events| ==> HasError(events[i])
    ensures forall i :: 0 <= i < |events| ==> Emissions(s, events)[i] == Nothing
    decreases |events|
  {
    if events != [] {
      ApplySound(s, events[0]);
      SilentForever(Apply(s, events[0]).0, events[1..]);
    }
  }

  lemma {:induction false} OneTerminal(s: StreamState, events: seq<Event>, i: nat, j: nat)
    requires Sound(s) && forall k :: 0 <= k < |events| ==> HasError(events[k])
    requires i < j < |events| && Terminal(Emissions(s, events)[i])
    ensures Emissions(s, events)[j] == Nothing
    decreases |events|
  {
    var (s', x) := Apply(s, events[0]);
    ApplySound(s, events[0]);
    if i == 0 {
      SilentForever(s', events[1..]);
      assert Emissions(s', events[1..])[j - 1] == Nothing;
    } else {
      OneTerminal(s', events[1..], i - 1, j - 1);
    }
  }

  lemma {:induction false} OffsetsFollowData(s: StreamState, events: seq<Event>, i: nat)
    requires i < |events|
    ensures var out := Emissions(s, events);
      && (out[i].Sent? ==> out[i].frame.offset == s.writeOffset + DataLength(out[..i]))
      && (out[i].Rst? ==> out[i].offset == s.writeOffset + DataLength(out[..i]))
    decreases |events|
  {
    ApplyOffset(s, events[0]);
    if i > 0 {
      var (s', x) := Apply(s, events[0]);
      OffsetsFollowData(s', events[1..], i - 1);
      var out := Emissions(s, events);
      assert out[..i][1..] == Emissions(s', events[1..])[..i - 1];
    }
  }

  lemma {:induction false} FinishedForever(s: StreamState, events: seq<Event>)
    requires s.Finished()
    ensures Run(s, events).Finished()
    decreases |events|
  {
    if events != [] {
      ApplyFinished(s, events[0]);
      FinishedForever(Apply(s, events[0]).0, events[1..]);
    }
  }

  /** Over every run of a new stream whose resets carry an error: once a FIN or a RST_STREAM is
      out nothing follows it, every frame starts where the data emitted before it ends, a
      RST_STREAM announces exactly that much, and a finished stream stays finished. */
  lemma TerminationSignals(id: StreamID, events: seq<Event>)
    requires forall i :: 0 <= i < |events| ==> HasError(events[i])
    ensures var out := Emissions(NewStream(id), events);
      && (forall i, j :: 0 <= i < j < |out| && Terminal(out[i]) ==> out[j] == Nothing)
      && (forall i :: 0 <= i < |out| && out[i].Sent? ==> out[i].frame.offset == DataLength(out[..i]))
      && (forall i :: 0 <= i < |out| && out[i].Rst? ==> out[i].offset == DataLength(out[..i]))
    ensures forall i :: 0 <= i <= |events| && Run(NewStream(id), events[..i]).Finished() ==>
      Run(NewStream(id), events).Finished()
  {
    var s := NewStream(id);
    var out := Emissions(s, events);
    forall i, j | 0 <= i < j < |out| && Terminal(out[i]) ensures out[j] == Nothing {
      OneTerminal(s, events, i, j);
    }
    forall i | 0 <= i < |out|
      ensures out[i].Sent? ==> out[i].frame.offset == DataLength(out[..i])
      ensures out[i].Rst? ==> out[i].offset == DataLength(out[..i])
    {
      OffsetsFollowData(s, events, i);
    }
    forall i | 0 <= i <= |events| && Run(s, events[..i]).Finished() ensures Run(s, events).Finished() {
      RunConcat(s, events[..i], events[i..]);
      assert events[..i] + events[i..] == events;
      FinishedForever(Run(s, events[..i]), events[i..]);
    }
  }

  lemma {:induction false} RunConcat(s: StreamState, es: seq<Event>, fs: seq<Event>)
    ensures Run(s, es + fs) == Run(Run(s, es), fs)
    decreases |es|
  {
    if es == [] {
      assert es + fs == fs;
    } else {
      RunConcat(Apply(s, es[0]).0, es[1..], fs);
      assert (es + fs)[1..] == es[1..] + fs;
    }
  }

  // ---------------------------------------------------------------- what a run leaves behind

  predicate IsFin(x: Emitted)
  {
    x.Sent? && x.frame.fin
  }

  predicate IsReset(e: Event)
  {
    e.Reset? || e.RemoteError?
  }

  // Some event in the run was a reset, and no FIN had gone out before it.
  ghost predicate ResetBeforeFin(events: seq<Event>, out: seq<Emitted>)
    requires |out| == |events|
  {
    exists i :: 0 <= i < |events| && IsReset(events[i]) && forall j :: 0 <= j < i ==> !IsFin(out[j])
  }

  // The flags of the stream tell what happened and what went out.
  ghost predicate Reflects(s: StreamState, events: seq<Event>, out: seq<Emitted>)
  {
    && |out| == |events|
    && (s.cancelled <==> exists i :: 0 <= i < |events| && events[i].Cancel?)
    && (s.finishedReading <==> exists i :: 0 <= i < |events| && events[i].ReadFin?)
    && (s.finishedWriting <==> exists i :: 0 <= i < |events| && events[i].Close?)
    && (s.resetLocally <==> exists i :: 0 <= i < |events| && events[i].Reset?)
    && (s.resetRemotely <==> exists i :: 0 <= i < |events| && events[i].RemoteError?)
    && (s.finSent <==> exists i :: 0 <= i < |out| && IsFin(out[i]))
    && (s.rstSent <==> exists i :: 0 <= i < |out| && out[i].Rst?)
    && (s.rstSent <==> ResetBeforeFin(events, out))
    && (s.finSent ==> s.finishedWriting)
  }

  // What one event does to the flags.
  lemma ApplyFlags(s: StreamState, e: Event)
    requires s.finSent ==> s.finishedWriting
    ensures var (s', x) := Apply(s, e);
      && s'.cancelled == (s.cancelled || e.Cancel?)
      && s'.finishedReading == (s.finishedReading || e.ReadFin?)
      && s'.finishedWriting == (s.finishedWriting || e.Close?)
      && s'.resetLocally == (s.resetLocally || e.Reset?)
      && s'.resetRemotely == (s.resetRemotely || e.RemoteError?)
      && s'.finSent == (s.finSent || IsFin(x))
      && s'.rstSent == (s.rstSent || x.Rst?)
      && (s'.finSent ==> s'.finishedWriting)
      && (x.Rst? ==> IsReset(e) && !s.finSent)
      && (IsReset(e) && !s.resetLocally && !s.resetRemotely && !s.rstSent && !s.finSent ==> x.Rst?)
  {
    hide Apply;
    if e.Send? { ApplySend(s, e.maxBytes, e.window); } else { ApplyOther(s, e); }
  }

  lemma {:induction false} EmissionsSnoc(s: StreamState, es: seq<Event>, e: Event)
    ensures Emissions(s, es + [e]) == Emissions(s, es) + [Apply(Run(s, es), e).1]
    ensures Run(s, es + [e]) == Apply(Run(s, es), e).0
    decreases |es|
  {
    hide Apply;
    if es != [] {
      EmissionsSnoc(Apply(s, es[0]).0, es[1..], e);
      assert (es + [e])[1..] == es[1..] + [e];
    }
  }

  lemma {:induction false} RunReflects(id: StreamID, events: seq<Event>)
    ensures Reflects(Run(NewStream(id), events), events, Emissions(NewStream(id), events))
    decreases |events|
  {
    hide Run, Emissions, Apply, Reflects;
    if events == [] {
      NewReflects(id);
    } else {
      var n := |events| - 1;
      RunReflects(id, events[..n]);
      EmissionsSnoc(NewStream(id), events[..n], events[n]);
      assert events == events[..n] + [events[n]];
      ReflectsSnoc(Run(NewStream(id), events[..n]), events[..n], Emissions(NewStream(id), events[..n]), events[n]);
    }
  }

  lemma NewReflects(id: StreamID)
    ensures Reflects(Run(NewStream(id), []), [], Emissions(NewStream(id), []))
  {
  }

  lemma EventsSnoc(es: seq<Event>, e: Event)
    ensures var es' := es + [e];
      && ((exists i :: 0 <= i < |es'| && es'[i].Cancel?) <==> e.Cancel? || exists i :: 0 <= i < |es| && es[i].Cancel?)
      && ((exists i :: 0 <= i < |es'| && es'[i].ReadFin?) <==>
          e.ReadFin? || exists i :: 0 <= i < |es| && es[i].ReadFin?)
      && ((exists i :: 0 <= i < |es'| && es'[i].Close?) <==> e.Close? || exists i :: 0 <= i < |es| && es[i].Close?)
      && ((exists i :: 0 <= i < |es'| && es'[i].Reset?) <==> e.Reset? || exists i :: 0 <= i < |es| && es[i].Reset?)
      && ((exists i :: 0 <= i < |es'| && es'[i].RemoteError?) <==>
          e.RemoteError? || exists i :: 0 <= i < |es| && es[i].RemoteError?)
  {
    var es' := es + [e];
    assert es'[|es|] == e && forall i :: 0 <= i < |es| ==> es'[i] == es[i];
  }

  lemma OutSnoc(out: seq<Emitted>, x: Emitted)
    ensures var out' := out + [x];
      && ((exists i :: 0 <= i < |out'| && IsFin(out'[i])) <==> IsFin(x) || exists i :: 0 <= i < |out| && IsFin(out[i]))
      && ((exists i :: 0 <= i < |out'| && out'[i].Rst?) <==> x.Rst? || exists i :: 0 <= i < |out| && out[i].Rst?)
  {
    var out' := out + [x];
    assert out'[|out|] == x && forall i :: 0 <= i < |out| ==> out'[i] == out[i];
  }

  lemma ResetSnoc(es: seq<Event>, out: seq<Emitted>, e: Event, x: Emitted)
    requires |out| == |es|
    ensures ResetBeforeFin(es + [e], out + [x]) <==>
      ResetBeforeFin(es, out) || (IsReset(e) && forall j :: 0 <= j < |out| ==> !IsFin(out[j]))
  {
    var es', out' := es + [e], out + [x];
    assert es'[|es|] == e && forall i :: 0 <= i < |es| ==> es'[i] == es[i] && out'[i] == out[i];
  }

  lemma ReflectsSnoc(s: StreamState, events: seq<Event>, out: seq<Emitted>, e: Event)
    requires Reflects(s, events, out)
    ensures Reflects(Apply(s, e).0, events + [e], out + [Apply(s, e).1])
  {
    ApplyFlags(s, e);
    EventsSnoc(events, e);
    OutSnoc(out, Apply(s, e).1);
    ResetSnoc(events, out, e, Apply(s, e).1);
    if !s.finSent { EarlierReset(events, out); }
    hide Apply, ResetBeforeFin, IsFin, IsReset;
  }

  lemma EarlierReset(events: seq<Event>, out: seq<Emitted>)
    requires |out| == |events| && forall i :: 0 <= i < |out| ==> !IsFin(out[i])
    ensures (exists i :: 0 <= i < |events| && (events[i].Reset? || events[i].RemoteError?)) ==>
      ResetBeforeFin(events, out)
  {
  }

  /** Over every run of a new stream: RST_STREAM goes out exactly if the stream is reset, by either side,
      before FIN has gone out; and the stream is finished exactly if it was cancelled, or this side has
      ended with FIN or RST_STREAM and the other side with a FIN that was read or with an error. */
  lemma FinishedExact(id: StreamID, events: seq<Event>)
    ensures var s, out := Run(NewStream(id), events), Emissions(NewStream(id), events);
      && ((exists i :: 0 <= i < |out| && out[i].Rst?) <==> ResetBeforeFin(events, out))
      && (s.Finished() <==>
          || (exists i :: 0 <= i < |events| && events[i].Cancel?)
          || ((exists i :: 0 <= i < |out| && Terminal(out[i])) &&
              exists i :: 0 <= i < |events| && (events[i].ReadFin? || events[i].RemoteError?)))
  {
    hide Run, Emissions;
    RunReflects(id, events);
  }

  // ---------------------------------------------------------------- resets without an error

  // Sound, without the link from a reset to an error.
  predicate Usable(s: StreamState)
  {
    && s.id != 1 && (s.finSent ==> s.finishedWriting && s.pending.None?)
    && (s.pending.Some? ==> s.pending.value != [])
  }

  /** A reset that sends RST_STREAM silences the stream in every continuation exactly if the
      stream has an error afterwards. With a nil error pending data and FIN still go out. */
  lemma ResetSilencesIff(s: StreamState, err: bool)
    requires Usable(s) && Apply(s, Reset(err)).1.Rst? && (s.resetRemotely ==> s.err)
    ensures (s.err || err) <==>
      forall es: seq<Event> :: (forall i :: 0 <= i < |es| ==> HasError(es[i])) ==>
        forall i :: 0 <= i < |es| ==> Emissions(Apply(s, Reset(err)).0, es)[i] == Nothing
  {
    var s' := Apply(s, Reset(err)).0;
    if s.err || err {
      forall es: seq<Event> | forall i :: 0 <= i < |es| ==> HasError(es[i])
        ensures forall i :: 0 <= i < |es| ==> Emissions(s', es)[i] == Nothing
      {
        SilentForever(s', es);
      }
    } else {
      var n := s'.PendingLen();
      var es := [Close, Send(16 + n, n)];
      LateFrame(s');
      assert Emissions(s', es)[1] != Nothing;
    }
  }

  lemma LateFrame(s: StreamState)
    requires Usable(s) && !s.err && !s.finSent
    ensures var n := s.PendingLen();
      Emissions(s, [Close, Send(16 + n, n)])[1].Sent? && Emissions(s, [Close, Send(16 + n, n)])[1].frame.fin
  {
    var n := s.PendingLen();
    var s1 := Apply(s, Close).0;
    var frame := Frame(s1.id, false, true, s1.writeOffset, []);
    Framer.HeaderBound(frame);
    hide MinLength;
    assert Apply(s1, Send(16 + n, n)).1.Sent?;
    assert [Close, Send(16 + n, n)][1..] == [Send(16 + n, n)];
  }
}
