/** The write server of hw1 as a state machine: what a line from a client, a new connection, a
    timeout and the other processes do to the seats. */
module SeatMachine {
  import opened Decimals

  const TRAIN_NUM := 5
  const SEAT_NUM := 40
  const TRAIN_ID_START := 902001
  const FILE_LEN := 80

  datatype Stat = Unknown | Chosen | Paid

  datatype Status = Invalid | Shift | Seat | Booked

  /** One slot of the request table; its number is the descriptor of the connection. */
  datatype Request = Request(connFd: int, status: Status, shiftId: int, chosen: int, seats: seq<Stat>)

  /** One train: which client has locked each seat (-1: none), the bytes of its file, the bytes
      on which this process holds a record lock, and those on which another process does. */
  datatype Train = Train(locks: seq<int>, file: seq<char>, held: set<nat>, foreign: set<nat>)

  datatype Server = Server(trains: seq<Train>, requests: seq<Request>)

  datatype Reply =
    | Exit | Locked | Cancelled | Full | SeatIsBooked | NoSeat | Success | InvalidOp
    | AskShift | AskSeat | AskSeatOrExit
    | Info(shiftId: int, chosen: seq<nat>, paid: seq<nat>)

  predicate TrainShaped(t: Train) {
    |t.locks| == SEAT_NUM && |t.file| == FILE_LEN
  }

  predicate ShiftOk(r: Request) {
    (r.status.Seat? || r.status.Booked?) ==> 0 <= r.shiftId - TRAIN_ID_START < TRAIN_NUM
  }

  predicate RequestShaped(r: Request) {
    |r.seats| == SEAT_NUM && ShiftOk(r) && (r.shiftId == -1 || 0 <= r.shiftId - TRAIN_ID_START < TRAIN_NUM)
  }

  predicate Shaped(s: Server) {
    && |s.trains| == TRAIN_NUM
    && (forall i :: 0 <= i < TRAIN_NUM ==> TrainShaped(s.trains[i]))
    && (forall fd :: 0 <= fd < |s.requests| ==> RequestShaped(s.requests[fd]))
  }

  // ---- Numbers in a line

  /** atoi of a string of digits: strtol, which stops at LONG_MAX, cut to 32 bits. */
  function Atoi(digits: string): int
    requires IsNumber(digits)
  {
    var v := if Parse(digits) < 0x8000_0000_0000_0000 then Parse(digits) else 0x7fff_ffff_ffff_ffff;
    (v + 0x8000_0000) % 0x1_0000_0000 - 0x8000_0000
  }

  // ---- Seats of one train and one client

  function FreeRequest(): Request {
    Request(-1, Invalid, -1, 0, seq(SEAT_NUM, _ => Unknown))
  }

  /** CheckBooked. */
  predicate IsBooked(t: Train, j: nat)
    requires TrainShaped(t) && j < SEAT_NUM
  {
    t.file[2 * j] == '1'
  }

  /** CheckAllOne. */
  predicate AllBooked(t: Train)
    requires TrainShaped(t)
  {
    forall j :: 0 <= j < SEAT_NUM ==> t.file[2 * j] != '0'
  }

  /** unlock, for one seat row. */
  function Unlock(t: Train, fd: int): (r: Train)
    requires TrainShaped(t)
    ensures TrainShaped(r)
  {
    t.(locks := seq(SEAT_NUM, j requires 0 <= j < SEAT_NUM => if t.locks[j] == fd then -1 else t.locks[j]),
       held := set j | j in t.held && !(j < SEAT_NUM && t.locks[j] == fd))
  }

  function SelectSeat(t: Train, r: Request, j: nat): (Train, Request, seq<Reply>)
    requires TrainShaped(t) && RequestShaped(r) && j < SEAT_NUM
  {
    if r.seats[j].Chosen? then
      (t.(locks := t.locks[j := -1], held := t.held - {j}),
       r.(seats := r.seats[j := Unknown], chosen := r.chosen - 1), [Cancelled])
    else if j in t.foreign || t.locks[j] != -1 then (t, r, [Locked])
    else
      (t.(locks := t.locks[j := r.connFd], held := t.held + {j}),
       r.(seats := r.seats[j := Chosen], chosen := r.chosen + 1), [])
  }

  function Pay(t: Train, r: Request): (Train, Request)
    requires TrainShaped(t) && RequestShaped(r)
  {
    (t.(file := seq(FILE_LEN, k requires 0 <= k < FILE_LEN =>
          if k % 2 == 0 && r.seats[k / 2].Chosen? then '1' else t.file[k])),
     r.(seats := seq(SEAT_NUM, j requires 0 <= j < SEAT_NUM => if r.seats[j].Chosen? then Paid else r.seats[j]),
        chosen := 0, status := Booked))
  }

  /** The numbers of the seats with this status, in order. */
  function Numbers(seats: seq<Stat>, stat: Stat): seq<nat> {
    if seats == [] then []
    else Numbers(seats[..|seats| - 1], stat) + if seats[|seats| - 1] == stat then [|seats|] else []
  }

  function InfoOf(r: Request): Reply {
    Info(r.shiftId, Numbers(r.seats, Chosen), Numbers(r.seats, Paid))
  }

  // ---- A line from a client

  datatype Outcome = Outcome(train: Train, request: Request, replies: seq<Reply>, leaves: bool)

  /** handle_read for a client that selects seats. */
  function OnSeat(t: Train, r: Request, line: string): Outcome
    requires TrainShaped(t) && RequestShaped(r)
  {
    if line == "pay" then
      if r.chosen == 0 then Outcome(t, r, [NoSeat, InfoOf(r), AskSeat], false)
      else
        var (t', r') := Pay(t, r);
        Outcome(t', r', [Success, InfoOf(r'), AskSeatOrExit], false)
    else if !IsNumber(line) || !(1 <= Atoi(line) <= SEAT_NUM) then Outcome(t, r, [InvalidOp], true)
    else if IsBooked(t, Atoi(line) - 1) then Outcome(t, r, [SeatIsBooked, InfoOf(r), AskSeat], false)
    else
      var (t', r', told) := SelectSeat(t, r, Atoi(line) - 1);
      Outcome(t', r', told + [InfoOf(r'), AskSeat], false)
  }

  /** unlock, close and free_request. */
  function Leave(s: Server, fd: nat): Server
    requires Shaped(s) && fd < |s.requests|
  {
    var r := s.requests[fd];
    var i := r.shiftId - TRAIN_ID_START;
    Server(if r.shiftId == -1 then s.trains else s.trains[i := Unlock(s.trains[i], r.connFd)],
           s.requests[fd := FreeRequest()])
  }

  /** handle_read and what main does with its result, for a complete line. */
  function OnLine(s: Server, fd: nat, line: string): (Server, seq<Reply>)
    requires Shaped(s) && fd < |s.requests| && !s.requests[fd].status.Invalid?
  {
    var r := s.requests[fd];
    if line == "exit" then (Leave(s, fd), [Exit])
    else if r.status.Shift? then
      if !IsNumber(line) || !(0 <= Atoi(line) - TRAIN_ID_START < TRAIN_NUM) then (Leave(s, fd), [InvalidOp])
      else if AllBooked(s.trains[Atoi(line) - TRAIN_ID_START]) then (s, [Full, AskShift])
      else
        var r' := r.(shiftId := Atoi(line), status := Seat);
        (s.(requests := s.requests[fd := r']), [InfoOf(r'), AskSeat])
    else if r.status.Seat? then
      var i := r.shiftId - TRAIN_ID_START;
      var o := OnSeat(s.trains[i], r, line);
      if o.leaves then (Leave(s, fd), o.replies)
      else (Server(s.trains[i := o.train], s.requests[fd := o.request]), o.replies)
    else
      if line == "seat" then
        (s.(requests := s.requests[fd := r.(status := Seat)]), [InfoOf(r), AskSeat])
      else (Leave(s, fd), [InvalidOp])
  }

  // ---- Steps

  datatype Event =
    | Accept(fd: nat)
    | Line(fd: nat, line: string)
    | Timeout(fd: nat)
    | OtherLocks(i: nat, j: nat)      // another process locks the byte of a seat,
    | OtherUnlocks(i: nat, j: nat)    // releases it, or
    | OtherBooks(i: nat, j: nat)      // writes it while it holds the lock

  predicate Enabled(s: Server, e: Event)
    requires Shaped(s)
  {
    match e
    case Accept(fd) => fd < |s.requests| && s.requests[fd].connFd == -1
    case Line(fd, _) => fd < |s.requests| && !s.requests[fd].status.Invalid?
    case Timeout(fd) => fd < |s.requests| && !s.requests[fd].status.Invalid?
    case OtherLocks(i, j) => i < TRAIN_NUM && j < SEAT_NUM && j !in s.trains[i].held
    case OtherUnlocks(i, j) => i < TRAIN_NUM && j < SEAT_NUM
    case OtherBooks(i, j) => i < TRAIN_NUM && j < SEAT_NUM && j in s.trains[i].foreign
  }

  function Apply(s: Server, e: Event): Server
    requires Shaped(s) && Enabled(s, e)
  {
    match e
    case Accept(fd) => s.(requests := s.requests[fd := s.requests[fd].(connFd := fd, status := Shift)])
    case Line(fd, line) => OnLine(s, fd, line).0
    case Timeout(fd) => Leave(s, fd)
    case OtherLocks(i, j) => s.(trains := s.trains[i := s.trains[i].(foreign := s.trains[i].foreign + {j})])
    case OtherUnlocks(i, j) => s.(trains := s.trains[i := s.trains[i].(foreign := s.trains[i].foreign - {j})])
    case OtherBooks(i, j) => s.(trains := s.trains[i := s.trains[i].(file := s.trains[i].file[2 * j := '1'])])
  }

  ghost predicate Next(s: Server, e: Event, s': Server) {
    Shaped(s) && Enabled(s, e) && s' == Apply(s, e)
  }

  /** The server before the first client; the slot of the listening socket is taken. */
  function Started(files: seq<seq<char>>, size: nat, listenFd: nat): Server
    requires |files| == TRAIN_NUM && listenFd < size
  {
    Server(seq(TRAIN_NUM, i requires 0 <= i < TRAIN_NUM => Train(seq(SEAT_NUM, _ => -1), files[i], {}, {})),
           seq(size, fd => if fd == listenFd then FreeRequest().(connFd := listenFd) else FreeRequest()))
  }

  ghost predicate StepAt(states: seq<Server>, events: seq<Event>, k: nat)
    requires k < |events| && |states| == |events| + 1
  {
    Next(states[k], events[k], states[k + 1])
  }

  ghost predicate Steps(states: seq<Server>, events: seq<Event>) {
    |states| == |events| + 1 && forall k: nat :: k < |events| ==> StepAt(states, events, k)
  }
}
