/** The upload worker's shared state; each method is one goroutine's work between two locks. */
module UploadPools {
  import opened InFlightSpec

  /** The paths in flight and the tasks in the channel. */
  datatype Board = Board(inFlight: set<string>, channel: seq<string>)

  /** Whether an image can be sent: not in flight, and the channel has room. */
  predicate CanSend(b: Board, room: nat, path: string) {
    path !in b.inFlight && |b.channel| < room
  }

  function SendTo(b: Board, path: string): Board {
    Board(b.inFlight + {path}, b.channel + [path])
  }

  /** A scheduling round: camera by camera, send what can be sent while slots are left. */
  function Round(b: Board, room: nat, slots: int, offers: seq<string>): Board
    decreases |offers|
  {
    if offers == [] || slots <= 0 then b
    else if CanSend(b, room, offers[0]) then Round(SendTo(b, offers[0]), room, slots - 1, offers[1..])
    else Round(b, room, slots, offers[1..])
  }

  /** What a round may do: append new, distinct, offered paths, within the slots and the room. */
  ghost predicate Appends(b: Board, r: Board, room: nat, slots: int, offers: seq<string>) {
    && b.channel <= r.channel && |r.channel| <= room
    && (|r.channel| - |b.channel| <= slots || r == b)
    && (forall p :: p in r.inFlight <==> p in b.inFlight || p in r.channel[|b.channel|..])
    && (forall k :: |b.channel| <= k < |r.channel| ==> r.channel[k] in offers && r.channel[k] !in b.inFlight)
    && (forall j, k :: |b.channel| <= j < k < |r.channel| ==> r.channel[j] != r.channel[k])
  }

  lemma AppendsOneMore(b: Board, r: Board, room: nat, slots: int, offers: seq<string>)
    requires offers != [] && slots > 0 && CanSend(b, room, offers[0])
    requires Appends(SendTo(b, offers[0]), r, room, slots - 1, offers[1..])
    ensures Appends(b, r, room, slots, offers)
  {
    var o, n := offers[0], |b.channel|;
    var b' := SendTo(b, o);
    assert r.channel[n] == b'.channel[n] == o;
    assert r.channel[n..] == [o] + r.channel[n+1..];
    forall k | n <= k < |r.channel| ensures r.channel[k] in offers && r.channel[k] !in b.inFlight {
      if k > n {
        assert r.channel[k] in offers[1..];
      }
    }
  }

  /** A round sends within its slots and the channel's room, nothing in flight, and nothing twice. */
  lemma {:induction false} RoundIsSafe(b: Board, room: nat, slots: int, offers: seq<string>)
    requires |b.channel| <= room
    ensures Appends(b, Round(b, room, slots, offers), room, slots, offers)
    decreases |offers|
  {
    if offers != [] && slots > 0 {
      if CanSend(b, room, offers[0]) {
        RoundIsSafe(SendTo(b, offers[0]), room, slots - 1, offers[1..]);
        AppendsOneMore(b, Round(b, room, slots, offers), room, slots, offers);
      } else {
        RoundIsSafe(b, room, slots, offers[1..]);
      }
    }
  }

  /** A round leaves out an image that was not in flight only when its slots or the room ran out. */
  lemma {:induction false} RoundIsComplete(b: Board, room: nat, slots: int, offers: seq<string>, p: string)
    requires |b.channel| <= room && p in offers && p !in b.inFlight
    ensures var r := Round(b, room, slots, offers);
            p in r.inFlight || |r.channel| - |b.channel| >= slots || |r.channel| == room
    decreases |offers|
  {
    if slots > 0 {
      var rest := offers[1..];
      assert p == offers[0] || p in rest;
      RoundIsSafe(b, room, slots, offers);
      if CanSend(b, room, offers[0]) {
        RoundIsSafe(SendTo(b, offers[0]), room, slots - 1, rest);
        if p != offers[0] {
          RoundIsComplete(SendTo(b, offers[0]), room, slots - 1, rest, p);
        }
      } else if p in rest {
        RoundIsComplete(b, room, slots, rest, p);
      }
    }
  }

  /** Earlier cameras first: what is sent leaves no earlier offer behind that was not in flight. */
  lemma {:induction false} EarlierFirst(b: Board, room: nat, slots: int, offers: seq<string>, i: nat, j: nat)
    requires |b.channel| <= room && i < j < |offers|
    requires offers[j] !in b.inFlight && offers[j] in Round(b, room, slots, offers[..j+1]).inFlight
    requires offers[j] !in offers[..j]
    ensures offers[i] in Round(b, room, slots, offers).inFlight
    decreases |offers|
  {
    var first, rest := offers[0], offers[1..];
    assert offers[..j+1][1..] == rest[..j] && offers[..j+1][0] == first;
    assert first in offers[..j] && rest[j-1] == offers[j];
    assert forall x :: x in rest[..j-1] ==> x in offers[..j];
    if slots > 0 {
      RoundIsSafe(b, room, slots, offers);
      if CanSend(b, room, first) {
        var b' := SendTo(b, first);
        RoundIsSafe(b', room, slots - 1, rest);
        if i > 0 {
          EarlierFirst(b', room, slots - 1, rest, i - 1, j - 1);
        }
      } else if i > 0 {
        EarlierFirst(b, room, slots, rest, i - 1, j - 1);
      } else if first !in b.inFlight {
        FullSendsNothing(b, room, slots, rest[..j]);
      }
    }
  }

  lemma {:induction false} FullSendsNothing(b: Board, room: nat, slots: int, offers: seq<string>)
    requires |b.channel| >= room
    ensures Round(b, room, slots, offers) == b
    decreases |offers|
  {
    if offers != [] && slots > 0 {
      FullSendsNothing(b, room, slots, offers[1..]);
    }
  }

  lemma RoundStep(b: Board, room: nat, slots: int, offers: seq<string>, i: nat)
    requires i < |offers| && slots > 0
    ensures Round(b, room, slots, offers[i..]) ==
            if CanSend(b, room, offers[i]) then Round(SendTo(b, offers[i]), room, slots - 1, offers[i+1..])
            else Round(b, room, slots, offers[i+1..])
  {
    assert offers[i..][1..] == offers[i+1..];
  }

  class UploadPool {
    const room: nat
    var maxConcurrent: int
    var activeUploads: int
    var inFlight: set<string>
    var channel: seq<string>
    var coordinator: Coordinator

    constructor (maxConcurrent: int)
      ensures inFlight == {} && channel == [] && activeUploads == 0 && coordinator == Choosing
      ensures this.maxConcurrent == maxConcurrent && room >= 8 && room >= 2 * maxConcurrent
    {
      this.maxConcurrent := maxConcurrent;
      room := if maxConcurrent * 2 < 8 then 8 else maxConcurrent * 2;
      activeUploads, inFlight, channel, coordinator := 0, {}, [], Choosing;
    }

    /** These fields are the shared part of the protocol's state. */
    ghost predicate Shows(s: Uploads)
      reads this
    {
      s.inFlight == inFlight && s.channel == channel && s.coordinator == coordinator && s.active == activeUploads
    }

    /** The coordinator checks its image against the in-flight set, and marks it. */
    method CheckInFlight(ghost s: Uploads) returns (marked: bool)
      requires Shows(s) && Enabled(s, DoCheck)
      modifies this`inFlight, this`coordinator
      ensures Shows(Next(s, DoCheck)) && marked == coordinator.Placing?
    {
      var p := coordinator.path;
      if p in inFlight {
        coordinator := Choosing;
        return false;
      }
      inFlight := inFlight + {p};
      coordinator := Placing(p);
      marked := true;
    }

    /** Sends the marked image, or gives it up when the channel is full. */
    method SendOrGiveUp(ghost s: Uploads) returns (sent: bool)
      requires Shows(s) && Enabled(s, DoSend(room))
      modifies this`inFlight, this`channel, this`coordinator
      ensures Shows(Next(s, DoSend(room))) && sent == (|s.channel| < room)
    {
      var p := coordinator.path;
      sent := |channel| < room;
      if sent {
        channel := channel + [p];
      } else {
        inFlight := inFlight - {p};
      }
      coordinator := Choosing;
    }

    /** A worker takes a task from the channel. */
    method Receive(ghost s: Uploads, ghost w: nat) returns (path: string)
      requires Shows(s) && Enabled(s, DoReceive(w))
      modifies this`channel
      ensures var t := Next(s, DoReceive(w)); Shows(t) && t.workers[w] == Received(path)
    {
      path := channel[0];
      channel := channel[1..];
    }

    method CountUp(ghost s: Uploads, ghost w: nat)
      requires Shows(s) && Enabled(s, DoCountUp(w))
      modifies this`activeUploads
      ensures Shows(Next(s, DoCountUp(w)))
    {
      activeUploads := activeUploads + 1;
    }

    /** The worker's clean-up, which runs even after a panic. */
    method Release(path: string, ghost s: Uploads, ghost w: nat)
      requires Shows(s) && Enabled(s, DoRelease(w)) && s.workers[w].path == path
      modifies this`inFlight
      ensures Shows(Next(s, DoRelease(w)))
    {
      inFlight := inFlight - {path};
    }

    method CountDown(ghost s: Uploads, ghost w: nat)
      requires Shows(s) && Enabled(s, DoCountDown(w))
      modifies this`activeUploads
      ensures Shows(Next(s, DoCountDown(w)))
    {
      activeUploads := activeUploads - 1;
    }

    ghost function OnBoard(): Board
      reads this
    {
      Board(inFlight, channel)
    }

    /** The coordinator with one camera's image, when no worker gets in between. */
    method PlaceOne(path: string) returns (placed: bool)
      requires coordinator == Choosing
      modifies this`inFlight, this`channel, this`coordinator
      ensures coordinator == Choosing && placed == CanSend(old(OnBoard()), room, path)
      ensures OnBoard() == if placed then SendTo(old(OnBoard()), path) else old(OnBoard())
    {
      coordinator := Holding(path);
      ghost var s := Init().(inFlight := inFlight, channel := channel,
                             coordinator := coordinator, active := activeUploads);
      placed := CheckInFlight(s);
      if placed {
        placed := SendOrGiveUp(Next(s, DoCheck));
      }
    }

    /** One scheduling round, when no worker gets in between; `offers` has each camera's next image. */
    method ScheduleUploads(offers: seq<string>)
      requires coordinator == Choosing
      modifies this`inFlight, this`channel, this`coordinator
      ensures coordinator == Choosing
      ensures OnBoard() == Round(old(OnBoard()), room, maxConcurrent - activeUploads, offers)
    {
      var availableSlots := maxConcurrent - activeUploads;
      ghost var target := Round(OnBoard(), room, availableSlots, offers);
      var scheduled := 0;
      var i := 0;
      while i < |offers| && scheduled < availableSlots
        invariant 0 <= i <= |offers| && coordinator == Choosing
        invariant Round(OnBoard(), room, availableSlots - scheduled, offers[i..]) == target
      {
        RoundStep(OnBoard(), room, availableSlots - scheduled, offers, i);
        var placed := PlaceOne(offers[i]);
        if placed {
          scheduled := scheduled + 1;
        }
        i := i + 1;
      }
    }
  }
}
