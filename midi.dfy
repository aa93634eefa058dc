/** MIDI control of a Helix unit (helixapi/midi.py): the output ports the
    host offers, the list of target ports kept in the settings, and the
    command table that turns "change to setlist k" and the like into
    control-change and program-change messages for every target.  Opening a
    port and sending on it is an append to the `sent` log of the system. */
module Midi {
  import opened Prelude

  /** A MIDI message as `mido.Message` builds it. */
  datatype Message =
    | ControlChange(channel: int, control: int, value: int)
    | ProgramChange(channel: int, program: int)

  /** One message sent on one output port. */
  datatype Sent = Sent(port: string, message: Message)

  /** The same message sent to every port of `ports`, in their order. */
  function Broadcast(ports: seq<string>, m: Message): (r: seq<Sent>)
    ensures |r| == |ports|
    ensures forall i :: 0 <= i < |r| ==> r[i].port == ports[i] && r[i].message == m
    decreases |ports|
  {
    if ports == [] then [] else Broadcast(ports[..|ports| - 1], m) + [Sent(ports[|ports| - 1], m)]
  }

  /** Broadcasting to two lists of ports one after the other is
      broadcasting to the joined list. */
  lemma {:induction false} BroadcastAppend(a: seq<string>, b: seq<string>, m: Message)
    ensures Broadcast(a + b, m) == Broadcast(a, m) + Broadcast(b, m)
    decreases |b|
  {
    if b != [] {
      var b0 := b[..|b| - 1];
      assert (a + b)[..|a + b| - 1] == a + b0;
      BroadcastAppend(a, b0, m);
    }
  }

  /** No targets, no messages. */
  lemma BroadcastNothing(m: Message)
    ensures Broadcast([], m) == []
  {
  }

  /** A list with no name twice. */
  predicate NoDup(s: seq<string>) {
    forall i, j :: 0 <= i < j < |s| ==> s[i] != s[j]
  }

  /** The saved target names that are available ports, in the saved
      order. */
  function Matched(saved: seq<string>, ports: seq<string>): seq<string>
    decreases |saved|
  {
    if saved == [] then []
    else
      var last := saved[|saved| - 1];
      Matched(saved[..|saved| - 1], ports) + (if last in ports then [last] else [])
  }

  /** A name is kept exactly when it was saved and is available. */
  lemma {:induction false} MatchedMembers(saved: seq<string>, ports: seq<string>, x: string)
    ensures x in Matched(saved, ports) <==> x in saved && x in ports
    decreases |saved|
  {
    if saved != [] {
      var init := saved[..|saved| - 1];
      MatchedMembers(init, ports, x);
      assert saved == init + [saved[|saved| - 1]];
    }
  }

  /** Matching keeps the saved order: it works piecewise on a list cut in
      two. */
  lemma {:induction false} MatchedAppend(a: seq<string>, b: seq<string>, ports: seq<string>)
    ensures Matched(a + b, ports) == Matched(a, ports) + Matched(b, ports)
    decreases |b|
  {
    if b != [] {
      var b0 := b[..|b| - 1];
      assert (a + b)[..|a + b| - 1] == a + b0;
      var last := b[|b| - 1];
      assert (a + b)[|a + b| - 1] == last;
      MatchedAppend(a, b0, ports);
      assert Matched(a + b, ports) == Matched(a + b0, ports) + (if last in ports then [last] else []);
      assert Matched(b, ports) == Matched(b0, ports) + (if last in ports then [last] else []);
    } else {
      assert a + b == a;
    }
  }

  /** When every saved target is available, all of them are kept. */
  lemma {:induction false} MatchedAllAvailable(saved: seq<string>, ports: seq<string>)
    requires forall i :: 0 <= i < |saved| ==> saved[i] in ports
    ensures Matched(saved, ports) == saved
    decreases |saved|
  {
    if saved != [] {
      MatchedAllAvailable(saved[..|saved| - 1], ports);
    }
  }

  /** The target list after `add(name)`: the name is appended when it is an
      available port not yet in the list. */
  function Added(items: seq<string>, ports: seq<string>, name: string): (r: seq<string>)
    ensures forall x :: x in r <==> x in items || (x == name && name in ports)
    ensures |items| <= |r| <= |items| + 1 && r[..|items|] == items
    ensures NoDup(items) ==> NoDup(r)
  {
    if name in ports && name !in items then items + [name] else items
  }

  /** The list after `list.remove(name)`: the first occurrence goes, the
      rest keeps its order. */
  function RemoveFirst(s: seq<string>, x: string): (r: seq<string>)
    ensures x !in s ==> r == s
    decreases |s|
  {
    if s == [] then []
    else if s[0] == x then s[1..]
    else
      assert s == [s[0]] + s[1..];
      [s[0]] + RemoveFirst(s[1..], x)
  }

  /** Removal takes out one occurrence of the name and nothing else. */
  lemma {:induction false} RemoveFirstCount(s: seq<string>, x: string)
    ensures multiset(RemoveFirst(s, x)) == multiset(s) - multiset{x}
    decreases |s|
  {
    if s != [] {
      assert s == [s[0]] + s[1..];
      if s[0] != x {
        RemoveFirstCount(s[1..], x);
        assert RemoveFirst(s, x) == [s[0]] + RemoveFirst(s[1..], x);
      }
    }
  }

  /** Removal from `a + [x] + b` with `x` not in `a` leaves `a + b`. */
  lemma {:induction false} RemoveFirstAround(a: seq<string>, x: string, b: seq<string>)
    requires forall k :: 0 <= k < |a| ==> a[k] != x
    ensures RemoveFirst(a + [x] + b, x) == a + b
    decreases |a|
  {
    var s := a + [x] + b;
    if a == [] {
      assert s[1..] == b;
    } else {
      var t := a[1..];
      assert s == [a[0]] + (t + [x] + b);
      RemoveFirstCons(a[0], t + [x] + b, x);
      RemoveFirstAround(t, x, b);
      ConcatCons(a, b);
    }
  }

  lemma ConcatCons<T>(a: seq<T>, b: seq<T>)
    requires |a| > 0
    ensures a + b == [a[0]] + (a[1..] + b)
  {
    assert a == [a[0]] + a[1..];
  }

  /** A head other than the name is kept in front. */
  lemma RemoveFirstCons(h: string, rest: seq<string>, x: string)
    requires h != x
    ensures RemoveFirst([h] + rest, x) == [h] + RemoveFirst(rest, x)
  {
    assert ([h] + rest)[1..] == rest;
  }

  /** What comes before the first occurrence is kept, and so is what comes
      after it. */
  lemma RemoveFirstSplits(s: seq<string>, x: string, i: nat)
    requires i < |s| && s[i] == x && x !in s[..i]
    ensures RemoveFirst(s, x) == s[..i] + s[i + 1..]
  {
    assert s == s[..i] + [x] + s[i + 1..];
    assert forall k :: 0 <= k < i ==> s[..i][k] in s[..i];
    RemoveFirstAround(s[..i], x, s[i + 1..]);
  }

  /** Removing a name just appended restores the list. */
  lemma AddThenRemove(s: seq<string>, x: string)
    requires x !in s
    ensures RemoveFirst(s + [x], x) == s
  {
    assert (s + [x])[..|s|] == s;
    RemoveFirstSplits(s + [x], x, |s|);
  }

  /** Dropping position `i` from a list without duplicates leaves a list
      without duplicates that no longer holds `s[i]`. */
  lemma NoDupDropAt(s: seq<string>, i: nat)
    requires NoDup(s) && i < |s|
    ensures NoDup(s[..i] + s[i + 1..]) && s[i] !in s[..i] + s[i + 1..]
  {
    var r := s[..i] + s[i + 1..];
    forall a | 0 <= a < |r| ensures r[a] == s[if a < i then a else a + 1] {
      if a < i {
        assert r[a] == s[..i][a];
      } else {
        assert r[a] == s[i + 1..][a - i];
      }
    }
  }

  /** In a list without duplicates, removal takes the name out entirely and
      keeps the list free of duplicates. */
  lemma RemoveFromNoDup(s: seq<string>, x: string)
    requires NoDup(s)
    ensures x !in RemoveFirst(s, x)
    ensures NoDup(RemoveFirst(s, x))
  {
    if x in s {
      var i :| 0 <= i < |s| && s[i] == x;
      assert x !in s[..i];
      RemoveFirstSplits(s, x, i);
      NoDupDropAt(s, i);
    }
  }

  /** `MIDI.System`: the ports the host offers and the messages sent so far. */
  class System {
    const ports: seq<string>
    var sent: seq<Sent>

    constructor(ports: seq<string>)
      ensures this.ports == ports && sent == []
    {
      this.ports := ports;
      sent := [];
    }

    /** `send_cc`. */
    method SendCc(port: string, channel: int, control: int, value: int)
      modifies this
      ensures sent == old(sent) + [Sent(port, ControlChange(channel, control, value))]
    {
      sent := sent + [Sent(port, ControlChange(channel, control, value))];
    }

    /** `send_pc`. */
    method SendPc(port: string, channel: int, program: int)
      modifies this
      ensures sent == old(sent) + [Sent(port, ProgramChange(channel, program))]
    {
      sent := sent + [Sent(port, ProgramChange(channel, program))];
    }

    /** `send_ccpc`: the control change goes out before the program
        change, both on the same port. */
    method SendCcPc(port: string, ccChannel: int, ccControl: int, ccValue: int, pcChannel: int, pcProgram: int)
      modifies this
      ensures sent == old(sent) + [Sent(port, ControlChange(ccChannel, ccControl, ccValue)),
                                   Sent(port, ProgramChange(pcChannel, pcProgram))]
    {
      SendCc(port, ccChannel, ccControl, ccValue);
      SendPc(port, pcChannel, pcProgram);
    }
  }

  /** `MIDI.Targets`: the ports commands go to.  `saves` logs every list
      written back to the settings file. */
  class Targets {
    const system: System
    var items: seq<string>
    var saves: seq<seq<string>>

    /** Starts from the targets saved in the settings. */
    constructor(system: System, saved: seq<string>)
      ensures this.system == system && saves == []
      ensures items == Matched(saved, system.ports)
    {
      this.system := system;
      items := [];
      saves := [];
      new;
      items := LoadTargets(saved);
    }

    /** `_load_targets`. */
    method LoadTargets(saved: seq<string>) returns (matched: seq<string>)
      ensures matched == Matched(saved, system.ports)
    {
      matched := [];
      var i := 0;
      while i < |saved|
        invariant 0 <= i <= |saved|
        invariant matched == Matched(saved[..i], system.ports)
      {
        var target := saved[i];
        assert saved[..i + 1][..i] == saved[..i];
        if target in system.ports {
          matched := matched + [target];
        }
        i := i + 1;
      }
      assert saved[..i] == saved;
    }

    /** `add`: an available port not yet targeted is appended and the list is
        saved; otherwise nothing changes. */
    method Add(name: string)
      modifies this
      ensures items == Added(old(items), system.ports, name)
      ensures saves == if items != old(items) then old(saves) + [items] else old(saves)
    {
      if name in system.ports {
        if name !in items {
          items := items + [name];
          saves := saves + [items];
        }
      }
    }

    /** `remove`: the first occurrence of a targeted port is removed and the
        list is saved; otherwise nothing changes. */
    method Remove(name: string)
      modifies this
      ensures items == RemoveFirst(old(items), name)
      ensures saves == if name in old(items) then old(saves) + [items] else old(saves)
    {
      if name in items {
        items := RemoveFirst(items, name);
        saves := saves + [items];
      }
    }
  }

  /** The messages of the command table, all on channel 0.  Setlists and
      snapshots are both chosen with controller 69; values 8 and 9 of it step
      through snapshots and controller 72 steps through presets. */
  const Channel := 0
  function SetlistMessage(index: int): Message { ControlChange(Channel, 69, index) }
  function PresetMessage(index: int): Message { ProgramChange(Channel, index) }
  function SnapshotMessage(index: int): Message { ControlChange(Channel, 69, index) }
  const NextPresetMessage := ControlChange(Channel, 72, 64)
  const PreviousPresetMessage := ControlChange(Channel, 72, 0)
  const NextSnapshotMessage := ControlChange(Channel, 69, 8)
  const PreviousSnapshotMessage := ControlChange(Channel, 69, 9)
  const ToeMessage := ControlChange(Channel, 59, 0)
  const TunerMessage := ControlChange(Channel, 68, 0)

  /** `MIDI.Commands`: every command sends its one message to each target in
      turn. */
  class Commands {
    const targets: Targets

    constructor(targets: Targets)
      ensures this.targets == targets
    {
      this.targets := targets;
    }

    /** The loop every command runs: one send per target, in the list's
        order. */
    method SendToEach(m: Message)
      modifies targets.system
      ensures targets.system.sent == old(targets.system.sent) + Broadcast(targets.items, m)
    {
      var system := targets.system;
      var ts := targets.items;
      var i := 0;
      while i < |ts|
        invariant 0 <= i <= |ts|
        invariant system.sent == old(system.sent) + Broadcast(ts[..i], m)
      {
        assert ts[..i + 1][..i] == ts[..i];
        match m {
          case ControlChange(channel, control, value) =>
            system.SendCc(ts[i], channel, control, value);
          case ProgramChange(channel, program) =>
            system.SendPc(ts[i], channel, program);
        }
        i := i + 1;
      }
      assert ts[..i] == ts;
    }

    /** `change_to_setlist`. */
    method ChangeToSetlist(index: int)
      modifies targets.system
      ensures targets.system.sent == old(targets.system.sent) + Broadcast(targets.items, SetlistMessage(index))
    {
      SendToEach(SetlistMessage(index));
    }

    /** `change_to_preset`. */
    method ChangeToPreset(index: int)
      modifies targets.system
      ensures targets.system.sent == old(targets.system.sent) + Broadcast(targets.items, PresetMessage(index))
    {
      SendToEach(PresetMessage(index));
    }

    /** `change_to_snapshot`. */
    method ChangeToSnapshot(index: int)
      modifies targets.system
      ensures targets.system.sent == old(targets.system.sent) + Broadcast(targets.items, SnapshotMessage(index))
    {
      SendToEach(SnapshotMessage(index));
    }

    /** `next_preset`. */
    method NextPreset()
      modifies targets.system
      ensures targets.system.sent == old(targets.system.sent) + Broadcast(targets.items, NextPresetMessage)
    {
      SendToEach(NextPresetMessage);
    }

    /** `previous_preset`. */
    method PreviousPreset()
      modifies targets.system
      ensures targets.system.sent == old(targets.system.sent) + Broadcast(targets.items, PreviousPresetMessage)
    {
      SendToEach(PreviousPresetMessage);
    }

    /** `next_snapshot`. */
    method NextSnapshot()
      modifies targets.system
      ensures targets.system.sent == old(targets.system.sent) + Broadcast(targets.items, NextSnapshotMessage)
    {
      SendToEach(NextSnapshotMessage);
    }

    /** `previous_snapshot`. */
    method PreviousSnapshot()
      modifies targets.system
      ensures targets.system.sent == old(targets.system.sent) + Broadcast(targets.items, PreviousSnapshotMessage)
    {
      SendToEach(PreviousSnapshotMessage);
    }

    /** `toggle_toe`, sending to the targets as the other commands do. */
    method ToggleToe()
      modifies targets.system
      ensures targets.system.sent == old(targets.system.sent) + Broadcast(targets.items, ToeMessage)
    {
      SendToEach(ToeMessage);
    }

    /** `toggle_tuner`, sending to the targets as the other commands do. */
    method ToggleTuner()
      modifies targets.system
      ensures targets.system.sent == old(targets.system.sent) + Broadcast(targets.items, TunerMessage)
    {
      SendToEach(TunerMessage);
    }
  }

  /** The command loop as written: the send is looked up as
      `self.targets.system`, but the target list keeps its system as
      `_system`, so the first target raises `AttributeError` before anything
      is sent.  The result is the outcome and the messages sent. */
  function CommandAsWritten(targets: seq<string>, m: Message): (r: (Outcome, seq<Sent>))
    ensures r.1 == []
    ensures r.0 == Pass <==> targets == []
  {
    if targets == [] then (Pass, []) else (Fail(AttributeMissing), [])
  }

  /** With one target, the command as written fails and sends nothing,
      where the intended command sends one message. */
  lemma CommandAsWrittenFails(port: string, index: int)
    ensures CommandAsWritten([port], SetlistMessage(index)) == (Fail(AttributeMissing), [])
    ensures Broadcast([port], SetlistMessage(index)) == [Sent(port, SetlistMessage(index))]
  {
  }

  /** The toe and tuner toggles as written iterate over `self.devices`,
      which the command object does not have: they raise `AttributeError`
      whatever the targets are. */
  function ToggleAsWritten(targets: seq<string>, m: Message): (r: (Outcome, seq<Sent>))
    ensures r.0 != Pass && r.1 == []
  {
    (Fail(AttributeMissing), [])
  }

  /** With one target the toggle as written sends nothing, where the
      intended toggle sends one message. */
  lemma ToggleAsWrittenFails(port: string)
    ensures ToggleAsWritten([port], ToeMessage).1 == []
    ensures Broadcast([port], ToeMessage) == [Sent(port, ToeMessage)]
  {
  }
}
