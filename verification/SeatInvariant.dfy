/** What every state of the write server satisfies. */
module SeatInvariant {
  import opened Decimals
  import opened SeatMachine

  /** The client has chosen or paid for seat j of train i. */
  predicate Owns(r: Request, i: nat, j: nat)
    requires RequestShaped(r) && j < SEAT_NUM
  {
    r.shiftId == TRAIN_ID_START + i && !r.seats[j].Unknown?
  }

  /** The lock of the seat and the record of the client agree; a chosen seat is not booked,
      a paid one is. */
  predicate Agree(t: Train, r: Request, fd: nat, i: nat, j: nat)
    requires TrainShaped(t) && RequestShaped(r) && j < SEAT_NUM
  {
    && (t.locks[j] == fd <==> Owns(r, i, j))
    && (Owns(r, i, j) ==> t.file[2 * j] == if r.seats[j].Chosen? then '0' else '1')
  }

  function HavingStat(seats: seq<Stat>, stat: Stat): set<nat> {
    set j: nat | j < |seats| && seats[j] == stat
  }

  /** One slot of the table by itself. */
  predicate RequestOk(r: Request, fd: nat) {
    && RequestShaped(r) && (r.connFd == -1 || r.connFd == fd) && (r.connFd == -1 ==> r == FreeRequest())
    && (r.status.Invalid? || r.status.Shift? ==> r.shiftId == -1)
    && (r.shiftId == -1 ==> forall j :: 0 <= j < SEAT_NUM ==> r.seats[j].Unknown?)
    && r.chosen == |HavingStat(r.seats, Chosen)| && (r.status.Booked? ==> r.chosen == 0)
  }

  /** One seat by itself: this process holds the record lock exactly while a client has it. */
  predicate PlaceOk(t: Train, slots: nat, j: nat)
    requires TrainShaped(t) && j < SEAT_NUM
  {
    && -1 <= t.locks[j] < slots && (j in t.held <==> t.locks[j] != -1) && (j in t.held ==> j !in t.foreign)
    && (t.file[2 * j] == '0' || t.file[2 * j] == '1')
  }

  predicate TrainOk(t: Train, slots: nat) {
    TrainShaped(t) && (forall j: nat :: j < SEAT_NUM ==> PlaceOk(t, slots, j)) && forall j :: j in t.held ==> j < SEAT_NUM
  }

  /** The client agrees with train number i about every seat. */
  predicate AgreesWith(t: Train, r: Request, fd: nat, i: nat)
    requires TrainShaped(t) && RequestShaped(r)
  {
    forall j: nat :: j < SEAT_NUM ==> Agree(t, r, fd, i, j)
  }

  ghost predicate Inv(s: Server) {
    && Shaped(s)
    && (forall i: nat :: i < TRAIN_NUM ==> TrainOk(s.trains[i], |s.requests|))
    && (forall fd: nat :: fd < |s.requests| ==> RequestOk(s.requests[fd], fd))
    && (forall fd: nat, i: nat :: fd < |s.requests| && i < TRAIN_NUM ==> AgreesWith(s.trains[i], s.requests[fd], fd, i))
  }

  // ---- One client acts on one train

  /** A client changes a seat only if nobody else has it. */
  predicate Spares(t: Train, t': Train, fd: nat)
    requires TrainShaped(t) && TrainShaped(t')
  {
    forall j: nat {:trigger t'.locks[j]} :: j < SEAT_NUM ==>
      && (t'.locks[j] == t.locks[j] || (t.locks[j] in {-1, fd as int} && t'.locks[j] in {-1, fd as int}))
      && (t'.file[2 * j] == t.file[2 * j] || t.locks[j] == fd)
  }

  lemma OthersStillAgree(t: Train, t': Train, fd: nat, r: Request, other: nat, i: nat)
    requires TrainShaped(t) && TrainShaped(t') && Spares(t, t', fd) && other != fd
    requires RequestShaped(r) && AgreesWith(t, r, other, i)
    ensures AgreesWith(t', r, other, i)
  {
    forall j: nat | j < SEAT_NUM ensures Agree(t', r, other, i, j) {
      assert Agree(t, r, other, i, j);
      assert t'.locks[j] == t'.locks[j];
    }
  }

  /** Slot fd and train i change; this keeps the invariant if it does between these two. */
  lemma ClientKeepsInv(s: Server, s': Server, fd: nat, i: nat, t': Train, r': Request)
    requires Inv(s) && fd < |s.requests| && i < TRAIN_NUM
    requires s' == Server(s.trains[i := t'], s.requests[fd := r'])
    requires TrainOk(t', |s.requests|) && RequestOk(r', fd) && Spares(s.trains[i], t', fd)
    requires AgreesWith(t', r', fd, i)
    requires r'.shiftId == TRAIN_ID_START + i || forall j :: 0 <= j < SEAT_NUM ==> r'.seats[j].Unknown?
    requires s.requests[fd].shiftId == TRAIN_ID_START + i || forall j :: 0 <= j < SEAT_NUM ==> s.requests[fd].seats[j].Unknown?
    ensures Inv(s')
  {
    forall u: nat, k: nat | u < |s'.requests| && k < TRAIN_NUM ensures AgreesWith(s'.trains[k], s'.requests[u], u, k) {
      assert AgreesWith(s.trains[k], s.requests[u], u, k);
      if u != fd && k == i {
        OthersStillAgree(s.trains[i], t', fd, s.requests[u], u, i);
      } else if u == fd && k != i {
        forall j: nat | j < SEAT_NUM ensures Agree(s'.trains[k], r', u, k, j) {
          assert Agree(s.trains[k], s.requests[u], u, k, j);
        }
      }
    }
  }

  lemma StatUpdate(seats: seq<Stat>, j: nat, stat: Stat)
    requires j < |seats|
    ensures stat.Chosen? && !seats[j].Chosen? ==>
      |HavingStat(seats[j := stat], Chosen)| == |HavingStat(seats, Chosen)| + 1
    ensures !stat.Chosen? && seats[j].Chosen? ==>
      |HavingStat(seats[j := stat], Chosen)| == |HavingStat(seats, Chosen)| - 1
  {
    var now := seats[j := stat];
    if stat.Chosen? && !seats[j].Chosen? {
      assert HavingStat(now, Chosen) == HavingStat(seats, Chosen) + {j};
    } else if !stat.Chosen? && seats[j].Chosen? {
      assert HavingStat(now, Chosen) == HavingStat(seats, Chosen) - {j};
    }
  }

  // ---- Selecting and paying

  ghost predicate Local(t: Train, r: Request, fd: nat, i: nat, slots: nat) {
    && TrainOk(t, slots) && RequestOk(r, fd) && AgreesWith(t, r, fd, i) && fd < slots
    && r.shiftId == TRAIN_ID_START + i && r.connFd == fd
  }

  lemma SelectKeepsLocal(t: Train, r: Request, fd: nat, i: nat, slots: nat, j: nat)
    requires Local(t, r, fd, i, slots) && r.status.Seat? && i < TRAIN_NUM && j < SEAT_NUM && !IsBooked(t, j)
    ensures var (t', r', _) := SelectSeat(t, r, j); Local(t', r', fd, i, slots) && Spares(t, t', fd)
  {
    var (t', r', _) := SelectSeat(t, r, j);
    assert PlaceOk(t, slots, j) && Agree(t, r, fd, i, j);
    forall k: nat | k < SEAT_NUM ensures PlaceOk(t', slots, k) && Agree(t', r', fd, i, k) {
      assert PlaceOk(t, slots, k) && Agree(t, r, fd, i, k);
    }
    StatUpdate(r.seats, j, r'.seats[j]);
  }

  lemma PayKeepsLocal(t: Train, r: Request, fd: nat, i: nat, slots: nat)
    requires Local(t, r, fd, i, slots) && r.status.Seat? && i < TRAIN_NUM
    ensures var (t', r') := Pay(t, r); Local(t', r', fd, i, slots) && Spares(t, t', fd)
  {
    var (t', r') := Pay(t, r);
    forall k: nat | k < SEAT_NUM
      ensures PlaceOk(t', slots, k) && Agree(t', r', fd, i, k) && (t'.file[2 * k] == t.file[2 * k] || t.locks[k] == fd) {
      assert PlaceOk(t, slots, k) && Agree(t, r, fd, i, k);
    }
    assert HavingStat(r'.seats, Chosen) == {};
  }

  lemma SeatKeepsLocal(t: Train, r: Request, line: string, fd: nat, i: nat, slots: nat)
    requires Local(t, r, fd, i, slots) && r.status.Seat? && i < TRAIN_NUM
    ensures var o := OnSeat(t, r, line); Local(o.train, o.request, fd, i, slots) && TrainShaped(o.train) && Spares(t, o.train, fd)
  {
    if line == "pay" {
      if r.chosen != 0 { PayKeepsLocal(t, r, fd, i, slots); }
    } else if !IsNumber(line) || !(1 <= Atoi(line) <= SEAT_NUM) {
    } else if !IsBooked(t, Atoi(line) - 1) {
      SelectKeepsLocal(t, r, fd, i, slots, Atoi(line) - 1);
    }
  }

  // ---- Leaving

  lemma UnlockReleases(t: Train, r: Request, fd: nat, i: nat, slots: nat)
    requires Local(t, r, fd, i, slots) && i < TRAIN_NUM
    ensures TrainOk(Unlock(t, fd), slots) && Spares(t, Unlock(t, fd), fd)
    ensures AgreesWith(Unlock(t, fd), FreeRequest(), fd, i)
  {
    var t' := Unlock(t, fd);
    forall k: nat | k < SEAT_NUM ensures PlaceOk(t', slots, k) && Agree(t', FreeRequest(), fd, i, k) {
      assert PlaceOk(t, slots, k) && Agree(t, r, fd, i, k);
    }
  }

  lemma FreeIsOk(fd: nat)
    ensures RequestOk(FreeRequest(), fd)
  {
    assert HavingStat(FreeRequest().seats, Chosen) == {};
  }

  lemma LeaveKeepsInv(s: Server, fd: nat)
    requires Inv(s) && fd < |s.requests| && s.requests[fd].connFd == fd
    ensures Inv(Leave(s, fd))
  {
    var r := s.requests[fd];
    FreeIsOk(fd);
    assert RequestOk(r, fd);
    if r.shiftId == -1 {
      assert s.trains[0 := s.trains[0]] == s.trains;
      assert AgreesWith(s.trains[0], r, fd, 0);
      NothingOwned(s.trains[0], r, FreeRequest(), fd, 0);
      ClientKeepsInv(s, Leave(s, fd), fd, 0, s.trains[0], FreeRequest());
    } else {
      var i := r.shiftId - TRAIN_ID_START;
      assert AgreesWith(s.trains[i], r, fd, i);
      UnlockReleases(s.trains[i], r, fd, i, |s.requests|);
      ClientKeepsInv(s, Leave(s, fd), fd, i, Unlock(s.trains[i], fd), FreeRequest());
    }
  }

  /** Two records without a seat agree with the same trains. */
  lemma NothingOwned(t: Train, r: Request, r': Request, fd: nat, i: nat)
    requires TrainShaped(t) && RequestShaped(r) && RequestShaped(r') && AgreesWith(t, r, fd, i)
    requires forall j :: 0 <= j < SEAT_NUM ==> r.seats[j].Unknown? && r'.seats[j].Unknown?
    ensures AgreesWith(t, r', fd, i)
  {
    forall j: nat | j < SEAT_NUM ensures Agree(t, r', fd, i, j) {
      assert Agree(t, r, fd, i, j);
    }
  }

  // ---- Every step

  lemma LiveIsConnected(r: Request, fd: nat)
    requires RequestOk(r, fd) && !r.status.Invalid?
    ensures r.connFd == fd
  {
  }

  /** A client without a train changes its record only; it may now choose a train. */
  lemma RecordKeepsInv(s: Server, fd: nat, i: nat, r': Request)
    requires Inv(s) && fd < |s.requests| && i < TRAIN_NUM && RequestOk(r', fd)
    requires s.requests[fd].shiftId == -1 && r'.shiftId in {-1, TRAIN_ID_START + i}
    requires forall j :: 0 <= j < SEAT_NUM ==> r'.seats[j].Unknown?
    ensures Inv(s.(requests := s.requests[fd := r']))
  {
    assert RequestOk(s.requests[fd], fd);
    assert s.trains[i := s.trains[i]] == s.trains;
    assert AgreesWith(s.trains[i], s.requests[fd], fd, i);
    NothingOwned(s.trains[i], s.requests[fd], r', fd, i);
    ClientKeepsInv(s, s.(requests := s.requests[fd := r']), fd, i, s.trains[i], r');
  }

  lemma AcceptKeepsInv(s: Server, fd: nat)
    requires Inv(s) && fd < |s.requests| && s.requests[fd].connFd == -1
    ensures Inv(Apply(s, Accept(fd)))
  {
    assert RequestOk(s.requests[fd], fd);
    FreeIsOk(fd);
    RecordKeepsInv(s, fd, 0, s.requests[fd].(connFd := fd, status := Shift));
  }

  lemma OnSeatKeepsInv(s: Server, fd: nat, line: string)
    requires Inv(s) && fd < |s.requests| && s.requests[fd].status.Seat? && line != "exit"
    ensures Inv(OnLine(s, fd, line).0)
  {
    var r := s.requests[fd];
    var i := r.shiftId - TRAIN_ID_START;
    LiveIsConnected(r, fd);
    assert AgreesWith(s.trains[i], r, fd, i) && TrainOk(s.trains[i], |s.requests|);
    SeatKeepsLocal(s.trains[i], r, line, fd, i, |s.requests|);
    var o := OnSeat(s.trains[i], r, line);
    if o.leaves {
      LeaveKeepsInv(s, fd);
    } else {
      ClientKeepsInv(s, OnLine(s, fd, line).0, fd, i, o.train, o.request);
    }
  }

  /** A client that goes on to select seats after it has paid. */
  lemma MoreSeatsKeepsInv(s: Server, fd: nat)
    requires Inv(s) && fd < |s.requests| && s.requests[fd].status.Booked?
    ensures Inv(s.(requests := s.requests[fd := s.requests[fd].(status := Seat)]))
  {
    var r := s.requests[fd];
    var r' := r.(status := Seat);
    var i := r.shiftId - TRAIN_ID_START;
    LiveIsConnected(r, fd);
    assert s.trains[i := s.trains[i]] == s.trains;
    assert AgreesWith(s.trains[i], r, fd, i);
    forall j: nat | j < SEAT_NUM ensures Agree(s.trains[i], r', fd, i, j) {
      assert Agree(s.trains[i], r, fd, i, j);
    }
    ClientKeepsInv(s, s.(requests := s.requests[fd := r']), fd, i, s.trains[i], r');
  }

  lemma LineKeepsInv(s: Server, fd: nat, line: string)
    requires Inv(s) && fd < |s.requests| && !s.requests[fd].status.Invalid?
    ensures Inv(OnLine(s, fd, line).0)
  {
    var r := s.requests[fd];
    LiveIsConnected(r, fd);
    LeaveKeepsInv(s, fd);
    if line == "exit" {
    } else if r.status.Shift? {
      if IsNumber(line) && 0 <= Atoi(line) - TRAIN_ID_START < TRAIN_NUM && !AllBooked(s.trains[Atoi(line) - TRAIN_ID_START]) {
        RecordKeepsInv(s, fd, Atoi(line) - TRAIN_ID_START, r.(shiftId := Atoi(line), status := Seat));
      }
    } else if r.status.Seat? {
      OnSeatKeepsInv(s, fd, line);
    } else {
      MoreSeatsKeepsInv(s, fd);
    }
  }

  /** Another process touches no seat that a client of this one has. */
  lemma OthersKeepInv(s: Server, i: nat, t': Train)
    requires Inv(s) && i < TRAIN_NUM && TrainOk(t', |s.requests|) && t'.locks == s.trains[i].locks
    requires forall j: nat {:trigger t'.locks[j]} :: j < SEAT_NUM && t'.locks[j] != -1 ==> t'.file[2 * j] == s.trains[i].file[2 * j]
    ensures Inv(s.(trains := s.trains[i := t']))
  {
    var s' := s.(trains := s.trains[i := t']);
    forall fd: nat, k: nat | fd < |s.requests| && k < TRAIN_NUM ensures AgreesWith(s'.trains[k], s'.requests[fd], fd, k) {
      assert AgreesWith(s.trains[k], s.requests[fd], fd, k);
      forall j: nat | j < SEAT_NUM ensures Agree(s'.trains[k], s.requests[fd], fd, k, j) {
        assert Agree(s.trains[k], s.requests[fd], fd, k, j);
        assert k == i ==> t'.locks[j] == s.trains[k].locks[j];
      }
    }
  }

  lemma OtherStepKeepsInv(s: Server, e: Event)
    requires Inv(s) && Enabled(s, e) && (e.OtherLocks? || e.OtherUnlocks? || e.OtherBooks?)
    ensures Inv(Apply(s, e))
  {
    var t, t' := s.trains[e.i], Apply(s, e).trains[e.i];
    forall j: nat | j < SEAT_NUM ensures PlaceOk(t', |s.requests|, j) {
      assert PlaceOk(t, |s.requests|, j);
    }
    assert PlaceOk(t, |s.requests|, e.j);
    OthersKeepInv(s, e.i, t');
  }

  /** Select, cancel, pay, exit, errors, timeouts, reuse of a descriptor and other processes:
      every step keeps the invariant. */
  lemma StepKeepsInv(s: Server, e: Event)
    requires Inv(s) && Enabled(s, e)
    ensures Inv(Apply(s, e))
  {
    if e.Accept? {
      AcceptKeepsInv(s, e.fd);
    } else if e.Line? {
      LineKeepsInv(s, e.fd, e.line);
    } else if e.Timeout? {
      LiveIsConnected(s.requests[e.fd], e.fd);
      LeaveKeepsInv(s, e.fd);
    } else {
      OtherStepKeepsInv(s, e);
    }
  }

  /** The files hold one '0' or '1' for each seat. */
  predicate FilesOk(files: seq<seq<char>>) {
    && |files| == TRAIN_NUM
    && forall i :: 0 <= i < TRAIN_NUM ==>
         |files[i]| == FILE_LEN && forall j :: 0 <= j < SEAT_NUM ==> files[i][2 * j] == '0' || files[i][2 * j] == '1'
  }

  lemma StartedInv(files: seq<seq<char>>, size: nat, listenFd: nat)
    requires FilesOk(files) && listenFd < size
    ensures Inv(Started(files, size, listenFd))
  {
    FreeIsOk(listenFd);
    assert HavingStat(FreeRequest().(connFd := listenFd).seats, Chosen) == {};
    forall fd: nat | fd < size ensures RequestOk(Started(files, size, listenFd).requests[fd], fd) {
      FreeIsOk(fd);
    }
  }

  lemma {:induction false} RunKeepsInv(states: seq<Server>, events: seq<Event>, k: nat)
    requires Steps(states, events) && Inv(states[0]) && k < |states|
    ensures Inv(states[k])
  {
    if k > 0 {
      RunKeepsInv(states, events, k - 1);
      assert StepAt(states, events, k - 1);
      StepKeepsInv(states[k - 1], events[k - 1]);
    }
  }
}
