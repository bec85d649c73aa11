/** What each line of a client is answered with, and exactly what it changes: choosing a train,
    a seat, paying, going on, leaving; likewise for a timeout and a new connection. */
module SeatLines {
  import opened Decimals
  import opened SeatMachine
  import opened SeatInvariant
  import opened SeatResults

  // ---- The number in a line

  /** The decimal notation of a number below 2^31 is read as that number. */
  lemma AtoiOfDecimal(n: nat)
    requires n < 0x8000_0000
    ensures IsNumber(Decimal(n)) && Atoi(Decimal(n)) == n
  {
    DecimalIsNumber(n);
    ParseDecimal(n);
  }

  /** Besides it, a string of digits is read as m if its value is below 2^63 and only exceeds m
      by a multiple of 2^32; so such a line names a train or a seat as well. */
  lemma ReadAs(line: string, m: nat)
    requires IsNumber(line) && m < 0x8000_0000
    ensures Atoi(line) == m <==> Parse(line) < 0x8000_0000_0000_0000 && Parse(line) % 0x1_0000_0000 == m
  {
    var v: int := Parse(line);
    if v < 0x8000_0000_0000_0000 {
      CutTo32(v);
      assert Atoi(line) == (v + 0x8000_0000) % 0x1_0000_0000 - 0x8000_0000;
    } else {
      assert Atoi(line) == -1;
    }
  }

  lemma CutTo32(v: nat)
    ensures (v + 0x8000_0000) % 0x1_0000_0000 - 0x8000_0000
         == if v % 0x1_0000_0000 < 0x8000_0000 then v % 0x1_0000_0000 else v % 0x1_0000_0000 - 0x1_0000_0000
  {
  }

  /** The printed number of a train names that train, and that of a seat the seat. */
  lemma PrintedNumbers(i: nat, j: nat)
    requires i < TRAIN_NUM && j < SEAT_NUM
    ensures Names(Decimal(TRAIN_ID_START + i), TRAIN_ID_START + i) && Names(Decimal(j + 1), j + 1)
  {
    AtoiOfDecimal(TRAIN_ID_START + i);
    AtoiOfDecimal(j + 1);
  }

  predicate Names(line: string, number: int) {
    IsNumber(line) && Atoi(line) == number
  }

  // ---- What stays

  /** Nobody but client fd is touched, and no train but number i. */
  ghost predicate OthersStay(s: Server, s': Server, fd: nat, i: int) {
    && |s'.requests| == |s.requests| && |s'.trains| == |s.trains|
    && (forall other :: 0 <= other < |s.requests| && other != fd ==> s'.requests[other] == s.requests[other])
    && (forall k :: 0 <= k < |s.trains| && k != i ==> s'.trains[k] == s.trains[k])
  }

  /** The info shows the train of the client and lists its chosen and its paid seats. */
  ghost predicate Shows(info: Reply, r: Request) {
    && info.Info? && info.shiftId == r.shiftId
    && Lists(info.chosen, r.seats, Chosen) && Lists(info.paid, r.seats, Paid)
  }

  lemma InfoShows(r: Request)
    ensures Shows(InfoOf(r), r)
  {
    NumbersList(r.seats, Chosen);
    NumbersList(r.seats, Paid);
  }

  // ---- Choosing a train

  ghost predicate HasNoSeat(r: Request) {
    forall j :: 0 <= j < |r.seats| ==> r.seats[j].Unknown?
  }

  /** A client that names train i is told that it is full, and nothing changes, if and only if
      every seat is booked; otherwise it is on that train without a seat, and is shown it. */
  lemma ChoosingATrain(s: Server, fd: nat, line: string, i: nat)
    requires Inv(s) && fd < |s.requests| && s.requests[fd].status.Shift?
    requires i < TRAIN_NUM && Names(line, TRAIN_ID_START + i)
    ensures var full := forall j :: 0 <= j < SEAT_NUM ==> s.trains[i].file[2 * j] == '1';
      var (s', told) := OnLine(s, fd, line);
      if full then s' == s && told == [Full, AskShift]
      else
        && |told| == 2 && Shows(told[0], s'.requests[fd]) && told[1] == AskSeat
        && OthersStay(s, s', fd, -1) && HasNoSeat(s'.requests[fd])
        && s'.requests[fd].status.Seat? && s'.requests[fd].shiftId == TRAIN_ID_START + i
        && s'.requests[fd].connFd == fd && s'.requests[fd].chosen == 0
  {
    var r := s.requests[fd];
    NumberIsNoWord(line);
    assert RequestOk(r, fd) && TrainOk(s.trains[i], |s.requests|);
    forall j: nat | j < SEAT_NUM ensures s.trains[i].file[2 * j] == '0' || s.trains[i].file[2 * j] == '1' {
      assert PlaceOk(s.trains[i], |s.requests|, j);
    }
    InfoShows(r.(shiftId := TRAIN_ID_START + i, status := Seat));
    assert HavingStat(r.seats, Chosen) == {};
  }

  // ---- Asking for a seat

  /** The seat becomes the client's choice or is given up; no other seat, client or byte changes. */
  ghost predicate OnlySeat(s: Server, s': Server, fd: nat, i: nat, j: nat)
    requires fd < |s.requests| && Shaped(s) && Shaped(s') && i < TRAIN_NUM && j < SEAT_NUM
  {
    && OthersStay(s, s', fd, i)
    && (forall k :: 0 <= k < SEAT_NUM && k != j ==>
          s'.requests[fd].seats[k] == s.requests[fd].seats[k] && s'.trains[i].locks[k] == s.trains[i].locks[k])
    && s'.requests[fd].(seats := s.requests[fd].seats, chosen := s.requests[fd].chosen) == s.requests[fd]
    && s'.trains[i].held - {j} == s.trains[i].held - {j}
    && s'.trains[i].file == s.trains[i].file && s'.trains[i].foreign == s.trains[i].foreign
  }

  /** Whatever the answer about a seat is, the client is then shown its seats and asked on. */
  lemma AskingShowsSeats(s: Server, fd: nat, line: string, j: nat)
    requires Inv(s) && fd < |s.requests| && s.requests[fd].status.Seat? && j < SEAT_NUM && Names(line, j + 1)
    ensures var i := s.requests[fd].shiftId - TRAIN_ID_START;
      var (s', told) := OnLine(s, fd, line);
      && |told| == (if told[0].Info? then 2 else 3)
      && Shaped(s') && OnlySeat(s, s', fd, i, j)
      && Shows(told[|told| - 2], s'.requests[fd]) && told[|told| - 1] == AskSeat
  {
    var r := s.requests[fd];
    var i := r.shiftId - TRAIN_ID_START;
    NumberIsNoWord(line);
    LiveIsConnected(r, fd);
    LineKeepsInv(s, fd, line);
    InfoShows(r);
    assert s.trains[i := s.trains[i]] == s.trains && s.requests[fd := r] == s.requests;
    if !IsBooked(s.trains[i], j) {
      InfoShows(SelectSeat(s.trains[i], r, j).1);
    }
  }

  // ---- Paying

  /** Exactly the chosen seats become paid and their bytes '1'; nothing else changes. */
  ghost predicate PaidUp(s: Server, s': Server, fd: nat, i: nat)
    requires fd < |s.requests| && Shaped(s) && Shaped(s') && i < TRAIN_NUM
  {
    && OthersStay(s, s', fd, i)
    && s'.requests[fd].connFd == s.requests[fd].connFd && s'.requests[fd].shiftId == s.requests[fd].shiftId
    && s'.requests[fd].status.Booked? && s'.requests[fd].chosen == 0
    && (forall j :: 0 <= j < SEAT_NUM ==>
          s'.requests[fd].seats[j] == if s.requests[fd].seats[j].Unknown? then Unknown else Paid)
    && (forall j :: 0 <= j < SEAT_NUM ==>
          s'.trains[i].file[2 * j] == if s.requests[fd].seats[j].Chosen? then '1' else s.trains[i].file[2 * j])
    && s'.trains[i].(file := s.trains[i].file) == s.trains[i]
  }

  /** A client that pays without a choice is told so, and nothing changes; one with a choice has
      then paid for it, is shown no chosen seat any more, and may go on or leave. */
  lemma Paying(s: Server, fd: nat)
    requires Inv(s) && fd < |s.requests| && s.requests[fd].status.Seat?
    ensures var i := s.requests[fd].shiftId - TRAIN_ID_START;
      var none := forall j :: 0 <= j < SEAT_NUM ==> !s.requests[fd].seats[j].Chosen?;
      var (s', told) := OnLine(s, fd, "pay");
      && |told| == 3 && Shaped(s') && fd < |s'.requests| && Shows(told[1], s'.requests[fd])
      && if none then s' == s && told[0] == NoSeat && told[2] == AskSeat
         else told[0] == Success && told[2] == AskSeatOrExit && told[1].chosen == [] && PaidUp(s, s', fd, i)
  {
    var r := s.requests[fd];
    assert RequestOk(r, fd);
    InfoShows(r);
    if r.chosen == 0 {
      NobodyChosen(r.seats);
      assert s.trains[r.shiftId - TRAIN_ID_START := s.trains[r.shiftId - TRAIN_ID_START]] == s.trains;
      assert s.requests[fd := r] == s.requests;
    } else {
      assert HavingStat(r.seats, Chosen) != {};
      PayingForChoice(s, fd);
    }
  }

  lemma PayingForChoice(s: Server, fd: nat)
    requires Inv(s) && fd < |s.requests| && s.requests[fd].status.Seat? && s.requests[fd].chosen != 0
    ensures var (s', told) := OnLine(s, fd, "pay");
      && Shaped(s') && PaidUp(s, s', fd, s.requests[fd].shiftId - TRAIN_ID_START)
      && |told| == 3 && told[0] == Success && told[2] == AskSeatOrExit
      && Shows(told[1], s'.requests[fd]) && told[1].chosen == []
  {
    var r := s.requests[fd];
    var r' := Pay(s.trains[r.shiftId - TRAIN_ID_START], r).1;
    LineKeepsInv(s, fd, "pay");
    InfoShows(r');
    NothingListed(r'.seats, Chosen);
  }

  lemma NobodyChosen(seats: seq<Stat>)
    requires |HavingStat(seats, Chosen)| == 0
    ensures forall j :: 0 <= j < |seats| ==> !seats[j].Chosen?
  {
    assert forall j :: 0 <= j < |seats| && seats[j].Chosen? ==> j in HavingStat(seats, Chosen);
  }

  lemma {:induction false} NothingListed(seats: seq<Stat>, stat: Stat)
    requires forall j :: 0 <= j < |seats| ==> seats[j] != stat
    ensures Numbers(seats, stat) == []
  {
    if seats != [] {
      NothingListed(seats[..|seats| - 1], stat);
    }
  }

  /** After paying, "seat" leads back to the seats, which stay as they are. */
  lemma GoingOn(s: Server, fd: nat)
    requires Inv(s) && fd < |s.requests| && s.requests[fd].status.Booked?
    ensures var (s', told) := OnLine(s, fd, "seat");
      && OthersStay(s, s', fd, -1) && s'.requests[fd] == s.requests[fd].(status := Seat)
      && |told| == 2 && Shows(told[0], s'.requests[fd]) && told[1] == AskSeat
  {
    InfoShows(s.requests[fd]);
  }

  // ---- Leaving and coming

  /** The slot is free to be used again: no client, no train, no seat. */
  ghost predicate FreeSlot(r: Request) {
    r.connFd == -1 && r.status.Invalid? && r.shiftId == -1 && r.chosen == 0 && HasNoSeat(r)
  }

  /** Exactly the seats the client had are unlocked, in both tables; no byte, no other client
      and no other lock changes. */
  ghost predicate Gone(s: Server, s': Server, fd: nat)
    requires Shaped(s) && fd < |s.requests|
  {
    && OthersStay(s, s', fd, s.requests[fd].shiftId - TRAIN_ID_START) && Shaped(s') && FreeSlot(s'.requests[fd])
    && forall i: nat, j: nat :: i < TRAIN_NUM && j < SEAT_NUM ==> SeatGivenUp(s, s', fd, i, j)
  }

  ghost predicate SeatGivenUp(s: Server, s': Server, fd: nat, i: nat, j: nat)
    requires Shaped(s) && Shaped(s') && fd < |s.requests| && i < TRAIN_NUM && j < SEAT_NUM
  {
    var t, t', had := s.trains[i], s'.trains[i], Owns(s.requests[fd], i, j);
    && t'.locks[j] == (if had then -1 else t.locks[j]) && (j in t'.held <==> j in t.held && !had)
    && t'.file == t.file && t'.foreign == t.foreign
  }

  lemma LeaveIsGone(s: Server, fd: nat)
    requires Inv(s) && fd < |s.requests| && s.requests[fd].connFd == fd
    ensures Gone(s, Leave(s, fd), fd)
  {
    LeaveKeepsInv(s, fd);
    forall i: nat, j: nat | i < TRAIN_NUM && j < SEAT_NUM ensures SeatGivenUp(s, Leave(s, fd), fd, i, j) {
      LeavingFreesOwnSeats(s, fd, i, j);
    }
  }

  /** A client whose time is up is gone. */
  lemma TimeoutLeaves(s: Server, fd: nat)
    requires Inv(s) && Enabled(s, Timeout(fd))
    ensures Gone(s, Apply(s, Timeout(fd)), fd)
  {
    LiveIsConnected(s.requests[fd], fd);
    LeaveIsGone(s, fd);
  }

  /** The lines a client may send, by what it is asked for. */
  predicate Understood(r: Request, line: string) {
    match r.status
    case Invalid => false
    case Shift => IsNumber(line) && 0 <= Atoi(line) - TRAIN_ID_START < TRAIN_NUM
    case Seat => line == "pay" || (IsNumber(line) && 1 <= Atoi(line) <= SEAT_NUM)
    case Booked => line == "seat"
  }

  /** A client that says "exit", or a line that is not understood, is told so and is gone; with
      every other line it stays. */
  lemma LineLeaves(s: Server, fd: nat, line: string)
    requires Inv(s) && fd < |s.requests| && !s.requests[fd].status.Invalid?
    ensures var (s', told) := OnLine(s, fd, line);
      if line == "exit" || !Understood(s.requests[fd], line) then
        Gone(s, s', fd) && told == [if line == "exit" then Exit else InvalidOp]
      else
        |s'.requests| == |s.requests| && s'.requests[fd].connFd == fd && !s'.requests[fd].status.Invalid?
  {
    LiveIsConnected(s.requests[fd], fd);
    LeaveIsGone(s, fd);
  }

  /** A new client is asked for its train; nobody else notices. */
  lemma Accepted(s: Server, fd: nat)
    requires Inv(s) && Enabled(s, Accept(fd))
    ensures var s' := Apply(s, Accept(fd)); var r := s'.requests[fd];
      && OthersStay(s, s', fd, -1) && s'.trains == s.trains
      && r.status.Shift? && r.connFd == fd && r.shiftId == -1 && r.chosen == 0 && HasNoSeat(r)
  {
    assert RequestOk(s.requests[fd], fd);
  }
}
