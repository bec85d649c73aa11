/** The write server of hw1 as it is programmed: its tables and files are changed in place.
    Each method has the effect of the function of SeatMachine that it is named after. */
module SeatServer {
  import opened Decimals
  import opened SeatMachine
  import opened SeatInvariant

  /** The loop of IsNumber. */
  method ReadIsNumber(line: string) returns (yes: bool)
    ensures yes == IsNumber(line)
  {
    var i := 0;
    while i < |line|
      invariant i <= |line| && IsNumber(line[..i])
    {
      if !('0' <= line[i] <= '9') {
        return false;
      }
      assert line[..i + 1] == line[..i] + [line[i]];
      i := i + 1;
    }
    assert line[..i] == line;
    return true;
  }

  /** atoi for a string of digits. */
  method ReadNumber(line: string) returns (value: int)
    requires IsNumber(line)
    ensures value == Atoi(line)
  {
    var v: nat := 0;
    for i := 0 to |line|
      invariant v == Parse(line[..i])
    {
      assert line[..i + 1][..i] == line[..i];
      v := 10 * v + DigitValue(line[i]);
    }
    assert line[..|line|] == line;
    if v >= 0x8000_0000_0000_0000 {
      v := 0x7fff_ffff_ffff_ffff;
    }
    value := (v + 0x8000_0000) % 0x1_0000_0000 - 0x8000_0000;
  }

  class WriteServer {
    const seatLock: array2<int>
    const files: array2<char>
    const requestP: array<Request>
    var held: seq<set<nat>>      // record locks of this process, by train,
    var foreign: seq<set<nat>>   // and of others

    ghost predicate Tables()
      reads this
    {
      && seatLock.Length0 == files.Length0 == |held| == |foreign| == TRAIN_NUM
      && seatLock.Length1 == SEAT_NUM && files.Length1 == FILE_LEN
    }

    ghost predicate Valid()
      reads this, requestP
    {
      Tables() && forall fd :: 0 <= fd < requestP.Length ==> RequestShaped(requestP[fd])
    }

    ghost function TrainAt(i: nat): (t: Train)
      requires Tables() && i < TRAIN_NUM
      reads this, seatLock, files
      ensures TrainShaped(t)
    {
      Train(seq(SEAT_NUM, j requires 0 <= j < SEAT_NUM reads seatLock, this requires Tables() => seatLock[i, j]),
            seq(FILE_LEN, k requires 0 <= k < FILE_LEN reads files, this requires Tables() => files[i, k]),
            held[i], foreign[i])
    }

    ghost function Abs(): (s: Server)
      requires Valid()
      reads this, seatLock, files, requestP
      ensures Shaped(s)
    {
      Server(seq(TRAIN_NUM, i requires 0 <= i < TRAIN_NUM reads this, seatLock, files requires Tables() => TrainAt(i)),
             requestP[..])
    }

    constructor (contents: seq<seq<char>>, size: nat, listenFd: nat)
      requires FilesOk(contents) && listenFd < size
      ensures Valid() && Abs() == Started(contents, size, listenFd) && Inv(Abs())
    {
      var locks := new int[TRAIN_NUM, SEAT_NUM]((_, _) => -1);
      var bytes := new char[TRAIN_NUM, FILE_LEN]((i, k) requires 0 <= i < TRAIN_NUM && 0 <= k < FILE_LEN => contents[i][k]);
      var slots := new Request[size](fd => if fd == listenFd then FreeRequest().(connFd := listenFd) else FreeRequest());
      assert slots[..] == Started(contents, size, listenFd).requests;
      seatLock, files, requestP := locks, bytes, slots;
      held := seq(TRAIN_NUM, _ => {});
      foreign := seq(TRAIN_NUM, _ => {});
      new;
      StartedInv(contents, size, listenFd);
      assert forall i: nat :: i < TRAIN_NUM ==> TrainAt(i) == Started(contents, size, listenFd).trains[i];
    }

    /** unlock. */
    method ReleaseSeats(fd: nat)
      requires Valid() && fd < requestP.Length
      modifies this`held, seatLock
      ensures Valid()
      ensures var r, i := requestP[fd], requestP[fd].shiftId - TRAIN_ID_START;
        Abs() == old(Abs().(trains := if r.shiftId == -1 then Abs().trains else Abs().trains[i := Unlock(TrainAt(i), r.connFd)]))
    {
      var r := requestP[fd];
      if r.shiftId == -1 {
        return;
      }
      var i := r.shiftId - TRAIN_ID_START;
      ghost var was := TrainAt(i);
      for j := 0 to SEAT_NUM
        invariant Valid() && |held| == |old(held)| && forall k :: 0 <= k < |held| && k != i ==> held[k] == old(held[k])
        invariant forall a, k :: 0 <= a < TRAIN_NUM && 0 <= k < SEAT_NUM ==>
          seatLock[a, k] == if a == i && k < j && was.locks[k] == r.connFd then -1 else old(seatLock[a, k])
        invariant forall k :: k in held[i] <==> k in was.held && !(k < j && was.locks[k] == r.connFd)
      {
        if seatLock[i, j] == r.connFd {
          seatLock[i, j] := -1;
          held := held[i := held[i] - {j}];
        }
      }
      assert TrainAt(i) == Unlock(was, r.connFd);
      assert forall a: nat :: a < TRAIN_NUM && a != i ==> TrainAt(a) == old(TrainAt(a));
    }

    /** unlock, close and free_request. */
    method Disconnect(fd: nat)
      requires Valid() && fd < requestP.Length
      modifies this`held, seatLock, requestP
      ensures Valid() && Abs() == Leave(old(Abs()), fd)
    {
      ReleaseSeats(fd);
      ghost var s := Abs();
      requestP[fd] := FreeRequest();
      assert Abs().trains == s.trains;
    }

    /** CheckAllOne. */
    method CheckAllOne(i: nat) returns (all: bool)
      requires Valid() && i < TRAIN_NUM
      ensures all == AllBooked(TrainAt(i))
    {
      for j := 0 to SEAT_NUM
        invariant forall k :: 0 <= k < j ==> TrainAt(i).file[2 * k] != '0'
      {
        if files[i, 2 * j] == '0' {
          assert TrainAt(i).file[2 * j] == '0';
          return false;
        }
      }
      return true;
    }

    /** A seat of one train is locked for a client or freed; the rest stays. */
    method SetLock(i: nat, j: nat, client: int)
      requires Valid() && i < TRAIN_NUM && j < SEAT_NUM
      modifies this`held, seatLock
      ensures Valid() && Abs().requests == old(Abs().requests)
      ensures var t := old(TrainAt(i)); Abs().trains == old(Abs().trains)[i := t.(locks := t.locks[j := client],
        held := if client == -1 then t.held - {j} else t.held + {j})]
    {
      ghost var was := TrainAt(i);
      seatLock[i, j] := client;
      held := held[i := if client == -1 then held[i] - {j} else held[i] + {j}];
      assert TrainAt(i).locks == was.locks[j := client] && TrainAt(i).file == was.file;
      assert forall a: nat :: a < TRAIN_NUM && a != i ==> TrainAt(a) == old(TrainAt(a));
    }

    /** SelectSeat: a choice is given up, refused or made. */
    method SelectSeat(fd: nat, j: nat) returns (told: seq<Reply>)
      requires Valid() && Inv(Abs()) && fd < requestP.Length && requestP[fd].status.Seat? && j < SEAT_NUM
      modifies this`held, seatLock, requestP
      ensures Valid()
      ensures var i := old(requestP[fd].shiftId) - TRAIN_ID_START;
        var (t', r', replies) := SeatMachine.SelectSeat(old(TrainAt(i)), old(requestP[fd]), j);
        Abs() == Server(old(Abs().trains)[i := t'], old(Abs().requests)[fd := r']) && told == replies
    {
      var r := requestP[fd];
      var i := r.shiftId - TRAIN_ID_START;
      LiveIsConnected(Abs().requests[fd], fd);
      ghost var s := Abs();
      assert s.trains[i := s.trains[i]] == s.trains && s.requests[fd := r] == s.requests;
      if r.seats[j].Chosen? {
        SetLock(i, j, -1);
        ghost var trains := Abs().trains;
        requestP[fd] := r.(seats := r.seats[j := Unknown], chosen := r.chosen - 1);
        assert Abs().trains == trains;
        told := [Cancelled];
      } else if j in foreign[i] || seatLock[i, j] != -1 {
        told := [Locked];
      } else {
        SetLock(i, j, r.connFd);
        ghost var trains := Abs().trains;
        requestP[fd] := r.(seats := r.seats[j := Chosen], chosen := r.chosen + 1);
        assert Abs().trains == trains;
        told := [];
      }
    }

    /** The loop that pays for all chosen seats. */
    method PayForSeats(fd: nat)
      requires Valid() && fd < requestP.Length && requestP[fd].status.Seat?
      modifies requestP, files
      ensures Valid()
      ensures var i := old(requestP[fd].shiftId) - TRAIN_ID_START;
        var (t', r') := Pay(old(TrainAt(i)), old(requestP[fd]));
        Abs() == Server(old(Abs().trains)[i := t'], old(Abs().requests)[fd := r'])
    {
      var was := requestP[fd];
      var i := was.shiftId - TRAIN_ID_START;
      ghost var t := TrainAt(i);
      for j := 0 to SEAT_NUM
        invariant Valid()
        invariant requestP[..] == old(requestP[..])[fd := requestP[fd]]
        invariant requestP[fd] == was.(seats := requestP[fd].seats, chosen := if j == 0 then was.chosen else 0)
        invariant forall k :: 0 <= k < SEAT_NUM ==>
          requestP[fd].seats[k] == if k < j && was.seats[k].Chosen? then Paid else was.seats[k]
        invariant forall a, k :: 0 <= a < TRAIN_NUM && 0 <= k < FILE_LEN ==>
          files[a, k] == if a == i && k < 2 * j && k % 2 == 0 && was.seats[k / 2].Chosen? then '1' else old(files[a, k])
      {
        if requestP[fd].seats[j].Chosen? {
          requestP[fd] := requestP[fd].(seats := requestP[fd].seats[j := Paid]);
          files[i, j * 2] := '1';
        }
        requestP[fd] := requestP[fd].(chosen := 0);
      }
      requestP[fd] := requestP[fd].(status := Booked);
      assert requestP[fd] == Pay(t, was).1;
      assert TrainAt(i) == Pay(t, was).0;
      assert forall a: nat :: a < TRAIN_NUM && a != i ==> TrainAt(a) == old(TrainAt(a));
    }

    /** The loop of print_train_info. */
    method BookingInfo(fd: nat) returns (info: Reply)
      requires Valid() && fd < requestP.Length
      ensures info == InfoOf(requestP[fd])
    {
      var r := requestP[fd];
      var chosen: seq<nat>, paid: seq<nat> := [], [];
      for i := 0 to SEAT_NUM
        invariant chosen == Numbers(r.seats[..i], Chosen) && paid == Numbers(r.seats[..i], Paid)
      {
        assert r.seats[..i + 1][..i] == r.seats[..i];
        if r.seats[i].Chosen? {
          chosen := chosen + [i + 1];
        } else if r.seats[i].Paid? {
          paid := paid + [i + 1];
        }
      }
      assert r.seats[..SEAT_NUM] == r.seats;
      info := Info(r.shiftId, chosen, paid);
    }

    /** handle_read for a client that selects seats. */
    method HandleSeat(fd: nat, line: string) returns (told: seq<Reply>, leaves: bool)
      requires Valid() && Inv(Abs()) && fd < requestP.Length && requestP[fd].status.Seat?
      modifies this`held, seatLock, requestP, files
      ensures Valid()
      ensures var i := old(requestP[fd].shiftId) - TRAIN_ID_START;
        var o := OnSeat(old(TrainAt(i)), old(requestP[fd]), line);
        && Abs() == Server(old(Abs().trains)[i := o.train], old(Abs().requests)[fd := o.request])
        && told == o.replies && leaves == o.leaves
    {
      ghost var s := Abs();
      ghost var i := requestP[fd].shiftId - TRAIN_ID_START;
      assert s.trains[i := s.trains[i]] == s.trains && s.requests[fd := s.requests[fd]] == s.requests;
      leaves := false;
      if line == "pay" {
        if requestP[fd].chosen == 0 {
          var info := BookingInfo(fd);
          told := [NoSeat, info, AskSeat];
        } else {
          PayForSeats(fd);
          var info := BookingInfo(fd);
          told := [Success, info, AskSeatOrExit];
        }
        return;
      }
      var number := ReadIsNumber(line);
      if !number {
        return [InvalidOp], true;
      }
      var seat := ReadNumber(line);
      if !(1 <= seat <= SEAT_NUM) {
        return [InvalidOp], true;
      }
      told := AskForSeat(fd, seat - 1);
    }

    method AskForSeat(fd: nat, j: nat) returns (told: seq<Reply>)
      requires Valid() && Inv(Abs()) && fd < requestP.Length && requestP[fd].status.Seat? && j < SEAT_NUM
      modifies this`held, seatLock, requestP
      ensures Valid()
      ensures var i := old(requestP[fd].shiftId) - TRAIN_ID_START;
        var t, r := old(TrainAt(i)), old(requestP[fd]);
        if IsBooked(t, j) then Abs() == old(Abs()) && told == [SeatIsBooked, InfoOf(r), AskSeat]
        else
          var (t', r', replies) := SeatMachine.SelectSeat(t, r, j);
          && Abs() == Server(old(Abs().trains)[i := t'], old(Abs().requests)[fd := r'])
          && told == replies + [InfoOf(r'), AskSeat]
    {
      var i := requestP[fd].shiftId - TRAIN_ID_START;
      var answer;
      if files[i, 2 * j] == '1' {
        answer := [SeatIsBooked];
      } else {
        answer := SelectSeat(fd, j);
      }
      var info := BookingInfo(fd);
      told := answer + [info, AskSeat];
    }

    /** A complete line from a live client: handle_read and what main makes of its result. */
    method HandleLine(fd: nat, line: string) returns (told: seq<Reply>)
      requires Valid() && Inv(Abs()) && fd < requestP.Length && !requestP[fd].status.Invalid?
      modifies this`held, seatLock, requestP, files
      ensures Valid() && (Abs(), told) == OnLine(old(Abs()), fd, line) && Inv(Abs())
    {
      LineKeepsInv(Abs(), fd, line);
      if line == "exit" {
        Disconnect(fd);
        return [Exit];
      }
      if requestP[fd].status.Shift? {
        told := HandleShift(fd, line);
      } else if requestP[fd].status.Seat? {
        ghost var s := Abs();
        var leaves: bool;
        told, leaves := HandleSeat(fd, line);
        if leaves {
          ghost var i := s.requests[fd].shiftId - TRAIN_ID_START;
          assert s.trains[i := s.trains[i]] == s.trains && s.requests[fd := s.requests[fd]] == s.requests;
          Disconnect(fd);
        }
      } else if line == "seat" {
        SetRequest(fd, requestP[fd].(status := Seat));
        var info := BookingInfo(fd);
        told := [info, AskSeat];
      } else {
        Disconnect(fd);
        told := [InvalidOp];
      }
    }

    method SetRequest(fd: nat, r: Request)
      requires Valid() && fd < requestP.Length && RequestShaped(r)
      modifies requestP
      ensures Valid() && requestP[fd] == r && Abs() == old(Abs().(requests := Abs().requests[fd := r]))
    {
      requestP[fd] := r;
      assert Abs().trains == old(Abs().trains);
    }

    /** The branch for a client that selects its train. */
    method HandleShift(fd: nat, line: string) returns (told: seq<Reply>)
      requires Valid() && fd < requestP.Length && requestP[fd].status.Shift? && line != "exit"
      modifies this`held, seatLock, requestP
      ensures Valid() && (Abs(), told) == OnLine(old(Abs()), fd, line)
    {
      var number := ReadIsNumber(line);
      if !number {
        Disconnect(fd);
        return [InvalidOp];
      }
      var shift := ReadNumber(line);
      if !(0 <= shift - TRAIN_ID_START < TRAIN_NUM) {
        Disconnect(fd);
        return [InvalidOp];
      }
      var all := CheckAllOne(shift - TRAIN_ID_START);
      if all {
        return [Full, AskShift];
      }
      SetRequest(fd, requestP[fd].(shiftId := shift, status := Seat));
      var info := BookingInfo(fd);
      told := [info, AskSeat];
    }

    /** accept_conn and the new status; the slot was left free by its last user. */
    method AcceptClient(fd: nat)
      requires Valid() && Inv(Abs()) && fd < requestP.Length && requestP[fd].connFd == -1
      modifies requestP
      ensures Valid() && Next(old(Abs()), Accept(fd), Abs()) && Inv(Abs())
    {
      StepKeepsInv(Abs(), Accept(fd));
      SetRequest(fd, requestP[fd].(connFd := fd, status := Shift));
    }

    /** The time of a client is up. */
    method Expire(fd: nat)
      requires Valid() && Inv(Abs()) && fd < requestP.Length && !requestP[fd].status.Invalid?
      modifies this`held, seatLock, requestP
      ensures Valid() && Next(old(Abs()), Timeout(fd), Abs()) && Inv(Abs())
    {
      StepKeepsInv(Abs(), Timeout(fd));
      Disconnect(fd);
    }
  }
}
