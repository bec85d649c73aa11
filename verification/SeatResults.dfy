/** What clients of the write server can rely on in every run. */
module SeatResults {
  import opened Decimals
  import opened SeatMachine
  import opened SeatInvariant

  // ---- Exclusivity

  lemma OwnerHasLock(s: Server, fd: nat, i: nat, j: nat)
    requires Inv(s) && fd < |s.requests| && i < TRAIN_NUM && j < SEAT_NUM
    ensures s.trains[i].locks[j] == fd <==> Owns(s.requests[fd], i, j)
    ensures Owns(s.requests[fd], i, j) ==> (s.requests[fd].seats[j].Chosen? <==> !IsBooked(s.trains[i], j))
  {
    assert AgreesWith(s.trains[i], s.requests[fd], fd, i);
    assert Agree(s.trains[i], s.requests[fd], fd, i, j);
  }

  /** No seat of a train is chosen or paid for by two live clients; a chosen one is locked for
      its client, against other processes too, and its byte is '0'. */
  lemma SeatsAreExclusive(s: Server, fd: nat, other: nat, i: nat, j: nat)
    requires Inv(s) && fd < |s.requests| && other < |s.requests| && i < TRAIN_NUM && j < SEAT_NUM
    requires Owns(s.requests[fd], i, j)
    ensures Owns(s.requests[other], i, j) ==> other == fd
    ensures s.trains[i].locks[j] == fd && j in s.trains[i].held && j !in s.trains[i].foreign
    ensures s.requests[fd].seats[j].Chosen? ==> s.trains[i].file[2 * j] == '0'
  {
    OwnerHasLock(s, fd, i, j);
    OwnerHasLock(s, other, i, j);
    assert TrainOk(s.trains[i], |s.requests|);
    assert PlaceOk(s.trains[i], |s.requests|, j);
  }

  /** A lock always names a live client on that train that has chosen or paid for the seat. */
  lemma LocksNameClients(s: Server, i: nat, j: nat)
    requires Inv(s) && i < TRAIN_NUM && j < SEAT_NUM && s.trains[i].locks[j] != -1
    ensures var fd := s.trains[i].locks[j];
      && 0 <= fd < |s.requests| && Owns(s.requests[fd], i, j)
      && (s.requests[fd].status.Seat? || s.requests[fd].status.Booked?) && s.requests[fd].connFd == fd
  {
    var fd := s.trains[i].locks[j];
    assert TrainOk(s.trains[i], |s.requests|);
    assert PlaceOk(s.trains[i], |s.requests|, j);
    OwnerHasLock(s, fd, i, j);
    assert RequestOk(s.requests[fd], fd);
  }

  /** A descriptor that is free to be used again names no lock of any train. */
  lemma FreeSlotsHoldNothing(s: Server, fd: nat, i: nat, j: nat)
    requires Inv(s) && fd < |s.requests| && s.requests[fd].connFd == -1 && i < TRAIN_NUM && j < SEAT_NUM
    ensures s.trains[i].locks[j] != fd
  {
    assert RequestOk(s.requests[fd], fd);
    OwnerHasLock(s, fd, i, j);
  }

  /** A client that leaves frees exactly its own seats, and the files stay as they are. */
  lemma LeavingFreesOwnSeats(s: Server, fd: nat, i: nat, j: nat)
    requires Inv(s) && fd < |s.requests| && s.requests[fd].connFd == fd && i < TRAIN_NUM && j < SEAT_NUM
    ensures var t, t' := s.trains[i], Leave(s, fd).trains[i];
      && t'.locks[j] == (if Owns(s.requests[fd], i, j) then -1 else t.locks[j])
      && (j in t'.held <==> j in t.held && !Owns(s.requests[fd], i, j))
      && t'.file == t.file && t'.foreign == t.foreign
  {
    OwnerHasLock(s, fd, i, j);
    assert RequestOk(s.requests[fd], fd);
  }

  // ---- What a client is told

  /** Somebody else has the seat: another process, or another client that has chosen it. */
  ghost predicate TakenByOther(s: Server, fd: nat, i: nat, j: nat)
    requires Shaped(s) && i < TRAIN_NUM && j < SEAT_NUM
  {
    j in s.trains[i].foreign || exists other: nat :: OtherChose(s, fd, other, i, j)
  }

  ghost predicate OtherChose(s: Server, fd: nat, other: nat, i: nat, j: nat)
    requires Shaped(s) && j < SEAT_NUM
  {
    other < |s.requests| && other != fd && Owns(s.requests[other], i, j) && s.requests[other].seats[j].Chosen?
  }

  /** The lock table says -1 for a seat exactly when no client has it. */
  lemma UnlockedMeansFree(s: Server, fd: nat, i: nat, j: nat)
    requires Inv(s) && fd < |s.requests| && i < TRAIN_NUM && j < SEAT_NUM && !IsBooked(s.trains[i], j)
    requires !Owns(s.requests[fd], i, j)
    ensures j in s.trains[i].foreign || s.trains[i].locks[j] != -1 <==> TakenByOther(s, fd, i, j)
  {
    if s.trains[i].locks[j] != -1 {
      LocksNameClients(s, i, j);
      var other := s.trains[i].locks[j];
      OwnerHasLock(s, other, i, j);
      assert OtherChose(s, fd, other, i, j);
    } else {
      forall other: nat | other < |s.requests| ensures !OtherChose(s, fd, other, i, j) {
        OwnerHasLock(s, other, i, j);
      }
    }
  }

  /** A client asks for seat j: it is told that the seat is booked, or that it gives up its
      choice, or that the seat is locked, which it is exactly if somebody else has it; and in
      every other case, but in no other, the seat is chosen for it. */
  lemma AskingForASeat(s: Server, fd: nat, line: string, j: nat)
    requires Inv(s) && fd < |s.requests| && s.requests[fd].status.Seat?
    requires IsNumber(line) && Atoi(line) == j + 1 && j < SEAT_NUM
    ensures var i := s.requests[fd].shiftId - TRAIN_ID_START;
      var (s', told) := OnLine(s, fd, line);
      var now := if Shaped(s') && fd < |s'.requests| then s'.requests[fd].seats[j] else Unknown;
      && |told| > 0 && Shaped(s') && |s'.requests| == |s.requests|
      && (told[0].SeatIsBooked? <==> s.trains[i].file[2 * j] == '1')
      && (told[0].Cancelled? <==> s.requests[fd].seats[j].Chosen?)
      && (told[0].Locked? <==> s.trains[i].file[2 * j] == '0' && !Owns(s.requests[fd], i, j) && TakenByOther(s, fd, i, j))
      && (told[0].SeatIsBooked? || told[0].Locked? ==> s' == s)
      && (told[0].Cancelled? ==> now.Unknown? && s'.trains[i].locks[j] == -1 && j !in s'.trains[i].held)
      && (told[0].Info? ==> now.Chosen? && s'.trains[i].locks[j] == fd && j in s'.trains[i].held)
      && (told[0].SeatIsBooked? || told[0].Cancelled? || told[0].Locked? || told[0].Info?)
  {
    var r := s.requests[fd];
    var i := r.shiftId - TRAIN_ID_START;
    LiveIsConnected(r, fd);
    OwnerHasLock(s, fd, i, j);
    assert TrainOk(s.trains[i], |s.requests|);
    assert PlaceOk(s.trains[i], |s.requests|, j);
    NumberIsNoWord(line);
    if !IsBooked(s.trains[i], j) {
      if !Owns(r, i, j) { UnlockedMeansFree(s, fd, i, j); }
    } else {
      assert s.trains[i := s.trains[i]] == s.trains && s.requests[fd := r] == s.requests;
    }
    assert s.trains[i := s.trains[i]] == s.trains && s.requests[fd := r] == s.requests;
  }

  lemma NumberIsNoWord(line: string)
    requires IsNumber(line)
    ensures line != "pay" && line != "exit" && line != "seat"
  {
    assert "pay"[0] == 'p' && "exit"[0] == 'e' && "seat"[0] == 's';
  }

  /** Asking twice for a free seat leaves everything as it was. */
  lemma AskingTwiceUndoes(s: Server, fd: nat, line: string, j: nat)
    requires Inv(s) && fd < |s.requests| && s.requests[fd].status.Seat?
    requires IsNumber(line) && Atoi(line) == j + 1 && j < SEAT_NUM
    requires OnLine(s, fd, line).1[0].Info?
    ensures Shaped(OnLine(s, fd, line).0) && OnLine(OnLine(s, fd, line).0, fd, line).0 == s
  {
    var r := s.requests[fd];
    var i := r.shiftId - TRAIN_ID_START;
    var t := s.trains[i];
    NumberIsNoWord(line);
    LiveIsConnected(r, fd);
    AskingForASeat(s, fd, line, j);
    OwnerHasLock(s, fd, i, j);
    assert TrainOk(t, |s.requests|);
    assert PlaceOk(t, |s.requests|, j);
    var (t1, r1, _) := SelectSeat(t, r, j);
    assert t1.locks[j := -1] == t.locks && t1.held - {j} == t.held && r1.seats[j := Unknown] == r.seats;
    assert SelectSeat(t1, r1, j).0 == t && SelectSeat(t1, r1, j).1 == r;
    assert s.trains[i := t1][i := t] == s.trains && s.requests[fd := r1][fd := r] == s.requests;
  }

  /** ns lists the numbers of the seats with this status, in increasing order. */
  ghost predicate Lists(ns: seq<nat>, seats: seq<Stat>, stat: Stat) {
    && (forall n: nat :: n in ns <==> 1 <= n <= |seats| && seats[n - 1] == stat)
    && (forall a, b :: 0 <= a < b < |ns| ==> ns[a] < ns[b])
  }

  lemma ListsOneMore(rest: seq<nat>, seats: seq<Stat>, stat: Stat, next: Stat)
    requires Lists(rest, seats, stat)
    ensures Lists(if next == stat then rest + [|seats| + 1] else rest, seats + [next], stat)
  {
    var ns := if next == stat then rest + [|seats| + 1] else rest;
    forall n: nat ensures n in ns <==> 1 <= n <= |seats| + 1 && (seats + [next])[n - 1] == stat {
      assert n in rest <==> 1 <= n <= |seats| && seats[n - 1] == stat;
    }
    forall a, b | 0 <= a < b < |ns| ensures ns[a] < ns[b] {
      assert rest[a] in rest;
    }
  }

  /** The listed numbers are those of the seats with that status, in increasing order. */
  lemma {:induction false} NumbersList(seats: seq<Stat>, stat: Stat)
    ensures Lists(Numbers(seats, stat), seats, stat)
  {
    if seats != [] {
      var shorter, next := seats[..|seats| - 1], seats[|seats| - 1];
      NumbersList(shorter, stat);
      ListsOneMore(Numbers(shorter, stat), shorter, stat, next);
      assert seats == shorter + [next];
      assert Numbers(shorter, stat) + [] == Numbers(shorter, stat);
    }
  }

  // ---- Payment

  /** The byte of the seat is written in this step. */
  predicate BookedBy(s: Server, s': Server, i: nat, j: nat)
    requires Shaped(s) && Shaped(s') && i < TRAIN_NUM && j < SEAT_NUM
  {
    !IsBooked(s.trains[i], j) && IsBooked(s'.trains[i], j)
  }

  /** The step is the payment of client fd, which has chosen the seat. */
  predicate PaysFor(s: Server, e: Event, fd: nat, i: nat, j: nat)
    requires Shaped(s) && j < SEAT_NUM
  {
    && e == Line(fd, "pay") && fd < |s.requests| && s.requests[fd].status.Seat?
    && Owns(s.requests[fd], i, j) && s.requests[fd].seats[j].Chosen?
  }

  /** What one step does to a train's file: nothing, but for the payment of a client and the
      booking by another process. */
  lemma StepFile(s: Server, e: Event, i: nat)
    requires Inv(s) && Enabled(s, e) && i < TRAIN_NUM
    ensures Shaped(Apply(s, e))
    ensures var f, f' := s.trains[i].file, Apply(s, e).trains[i].file;
      && (forall k :: 0 <= k < FILE_LEN && f'[k] != f[k] ==> k % 2 == 0 && f[k] == '0' && f'[k] == '1')
      && (forall j: nat :: j < SEAT_NUM && f[2 * j] == '0' ==>
            (f'[2 * j] == '1' <==> e == OtherBooks(i, j) || (e.Line? && PaysFor(s, e, e.fd, i, j))))
  {
    StepKeepsInv(s, e);
    var f, f' := s.trains[i].file, Apply(s, e).trains[i].file;
    if e.Line? && !s.requests[e.fd].status.Invalid? {
      LineFile(s, e.fd, e.line, i);
    } else if e.OtherBooks? {
      assert PlaceOk(s.trains[e.i], |s.requests|, e.j);
    }
  }

  lemma LineFile(s: Server, fd: nat, line: string, i: nat)
    requires Inv(s) && fd < |s.requests| && !s.requests[fd].status.Invalid? && i < TRAIN_NUM
    ensures var f, f' := s.trains[i].file, OnLine(s, fd, line).0.trains[i].file;
      && |f'| == |f|
      && (forall k :: 0 <= k < FILE_LEN && f'[k] != f[k] ==> k % 2 == 0 && f[k] == '0' && f'[k] == '1')
      && (forall j: nat :: j < SEAT_NUM && f[2 * j] == '0' ==>
            (f'[2 * j] == '1' <==> PaysFor(s, Line(fd, line), fd, i, j)))
  {
    var r := s.requests[fd];
    var e := Line(fd, line);
    if r.status.Seat? && line == "pay" && r.shiftId == TRAIN_ID_START + i {
      PayFile(s, fd, i);
    } else {
      assert forall j: nat :: j < SEAT_NUM ==> !PaysFor(s, e, fd, i, j);
      OtherLinesKeepFile(s, fd, line, i);
    }
  }

  lemma OtherLinesKeepFile(s: Server, fd: nat, line: string, i: nat)
    requires Inv(s) && fd < |s.requests| && !s.requests[fd].status.Invalid? && i < TRAIN_NUM
    requires !(s.requests[fd].status.Seat? && line == "pay" && s.requests[fd].shiftId == TRAIN_ID_START + i)
    ensures OnLine(s, fd, line).0.trains[i].file == s.trains[i].file
  {
  }

  lemma PayFile(s: Server, fd: nat, i: nat)
    requires Inv(s) && fd < |s.requests| && s.requests[fd].status.Seat? && i < TRAIN_NUM
    requires s.requests[fd].shiftId == TRAIN_ID_START + i
    ensures var r := s.requests[fd]; r.chosen == 0 ==> forall j :: 0 <= j < SEAT_NUM ==> !r.seats[j].Chosen?
    ensures var f, f' := s.trains[i].file, Pay(s.trains[i], s.requests[fd]).0.file;
      && (forall k :: 0 <= k < FILE_LEN && f'[k] != f[k] ==> k % 2 == 0 && f[k] == '0' && f'[k] == '1')
      && (forall j: nat :: j < SEAT_NUM && f[2 * j] == '0' ==> (f'[2 * j] == '1' <==> s.requests[fd].seats[j].Chosen?))
  {
    var r := s.requests[fd];
    forall j: nat | j < SEAT_NUM ensures r.seats[j].Chosen? ==> s.trains[i].file[2 * j] == '0' {
      OwnerHasLock(s, fd, i, j);
      assert TrainOk(s.trains[i], |s.requests|) && PlaceOk(s.trains[i], |s.requests|, j);
    }
    assert forall k :: 0 <= k < FILE_LEN && k % 2 == 0 ==> k == 2 * (k / 2);
    assert RequestOk(r, fd);
    assert forall j :: 0 <= j < SEAT_NUM && r.seats[j].Chosen? ==> j in HavingStat(r.seats, Chosen);
  }

  /** A byte goes from '0' to '1' by the payment of exactly one client, whose seat becomes paid,
      or by another process that holds the record lock while no client has the seat. */
  lemma BookingHasOneBuyer(s: Server, e: Event, i: nat, j: nat)
    requires Inv(s) && Enabled(s, e) && Shaped(Apply(s, e)) && i < TRAIN_NUM && j < SEAT_NUM
    requires BookedBy(s, Apply(s, e), i, j)
    ensures e == OtherBooks(i, j) ==> j in s.trains[i].foreign && s.trains[i].locks[j] == -1
    ensures e != OtherBooks(i, j) ==> e.Line? && PaysFor(s, e, e.fd, i, j)
    ensures e != OtherBooks(i, j) ==> forall fd: nat :: fd < |s.requests| ==>
      (fd == e.fd <==> !PaidBy(s, fd, i, j) && PaidBy(Apply(s, e), fd, i, j))
  {
    StepFile(s, e, i);
    assert TrainOk(s.trains[i], |s.requests|);
    assert PlaceOk(s.trains[i], |s.requests|, j);
    if e != OtherBooks(i, j) {
      assert s.trains[i].file[2 * j] == '0';
      OwnerHasLock(s, e.fd, i, j);
      assert s.requests[e.fd].chosen != 0 by {
        assert RequestOk(s.requests[e.fd], e.fd);
        assert j in HavingStat(s.requests[e.fd].seats, Chosen);
      }
    }
  }

  predicate PaidBy(s: Server, fd: nat, i: nat, j: nat)
    requires Shaped(s) && j < SEAT_NUM
  {
    fd < |s.requests| && Owns(s.requests[fd], i, j) && s.requests[fd].seats[j].Paid?
  }

  /** A paid seat stays paid until its client leaves. */
  lemma PaidStaysPaid(s: Server, e: Event, fd: nat, i: nat, j: nat)
    requires Inv(s) && Enabled(s, e) && Shaped(Apply(s, e)) && i < TRAIN_NUM && j < SEAT_NUM && PaidBy(s, fd, i, j)
    ensures PaidBy(Apply(s, e), fd, i, j) || Apply(s, e).requests[fd] == FreeRequest()
  {
    OwnerHasLock(s, fd, i, j);
    assert RequestOk(s.requests[fd], fd);
  }

  // ---- Over whole runs

  ghost function Bit(b: bool): nat {
    if b then 1 else 0
  }

  ghost predicate BookedAt(states: seq<Server>, k: nat, i: nat, j: nat)
    requires k < |states| && i < TRAIN_NUM && j < SEAT_NUM
  {
    Shaped(states[k]) && IsBooked(states[k].trains[i], j)
  }

  /** How many steps from state a to state b book the seat. */
  ghost function Bookings(states: seq<Server>, a: nat, b: nat, i: nat, j: nat): nat
    requires a <= b < |states| && i < TRAIN_NUM && j < SEAT_NUM
    decreases b
  {
    if a == b then 0
    else Bookings(states, a, b - 1, i, j) + Bit(!BookedAt(states, b - 1, i, j) && BookedAt(states, b, i, j))
  }

  /** Over every run each seat is booked once at most, and stays booked. */
  lemma {:induction false} BookedOnce(states: seq<Server>, events: seq<Event>, a: nat, b: nat, i: nat, j: nat)
    requires Steps(states, events) && Inv(states[0]) && a <= b < |states| && i < TRAIN_NUM && j < SEAT_NUM
    ensures BookedAt(states, a, i, j) ==> BookedAt(states, b, i, j)
    ensures Bookings(states, a, b, i, j) == Bit(BookedAt(states, b, i, j)) - Bit(BookedAt(states, a, i, j))
    decreases b
  {
    if a < b {
      BookedOnce(states, events, a, b - 1, i, j);
      RunKeepsInv(states, events, b - 1);
      assert StepAt(states, events, b - 1);
      StepFile(states[b - 1], events[b - 1], i);
    }
  }

  /** Once a seat is booked no client ever chooses it again. */
  lemma BookedIsNeverChosen(states: seq<Server>, events: seq<Event>, a: nat, b: nat, fd: nat, i: nat, j: nat)
    requires Steps(states, events) && Inv(states[0]) && a <= b < |states| && i < TRAIN_NUM && j < SEAT_NUM
    requires BookedAt(states, a, i, j) && Shaped(states[b]) && fd < |states[b].requests|
    ensures !(Owns(states[b].requests[fd], i, j) && states[b].requests[fd].seats[j].Chosen?)
  {
    BookedOnce(states, events, a, b, i, j);
    RunKeepsInv(states, events, b);
    OwnerHasLock(states[b], fd, i, j);
  }
}
