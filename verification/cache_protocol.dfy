/** The cache info file: any number of calls lock, read, insert, write a temporary file, rename
    and unlock, while others read without the lock. Every step of every call is one transition,
    and a call may stop for good at any point, which gives its lock back. */
module CacheProtocol {
  import opened Values

  type Info = seq<bv8>
  type Cache = map<string, Info>

  /** How a cache is written as text; a text that is not well formed does not decode. */
  datatype Codec = Codec(ser: Cache -> string, de: string -> Option<Cache>)

  ghost predicate RoundTrips(c: Codec) {
    forall cache :: c.de(c.ser(cache)) == Some(cache)
  }

  datatype Update = Update(id: nat, path: string, info: Info)

  datatype Job = Writer(path: string, info: Info) | Reader

  /** Where a call is. `at` is the number of renames before the moment that matters:
      the opening of the file read, or the call's own rename. */
  datatype Pc =
    | Begun
    | Holding
    | Found
    | Reading(inode: nat, got: string, at: nat)
    | Loaded(cache: Cache, at: nat)
    | Writing(temp: nat, next: Cache)
    | Renamed(at: nat)
    | Finished(at: nat)
    | Aborted

  /** A call, and how many renames there had been when it began. */
  datatype Call = Call(job: Job, pc: Pc, since: nat)

  /** File contents by inode, the inode under the file's name, the lock's owner, every call
      so far, and the inserts in the order of their renames. */
  datatype State = State(
    data: map<nat, string>, dst: Option<nat>, lock: Option<nat>, calls: map<nat, Call>, history: seq<Update>)

  datatype Label =
    | Begin(id: nat, job: Job)
    | Lock(id: nat)
    | Look(id: nat)
    | Open(id: nat)
    | Read(id: nat, upTo: nat)
    | Decode(id: nat)
    | Create(id: nat, inode: nat)
    | Write(id: nat, upTo: nat)
    | Rename(id: nat)
    | Unlock(id: nat)
    | Abort(id: nat)

  function Parse(c: Codec, text: string): Cache {
    match c.de(text) case Some(cache) => cache case None => map[]
  }

  /** What the file means to whoever reads it whole. */
  function View(c: Codec, s: State): Cache {
    if s.dst.Some? && s.dst.value in s.data then Parse(c, s.data[s.dst.value]) else map[]
  }

  /** The updates one after another. */
  function Fold(base: Cache, inserts: seq<Update>): Cache {
    if inserts == [] then base else
    var last := inserts[|inserts| - 1];
    Fold(base, inserts[..|inserts| - 1])[last.path := last.info]
  }

  predicate StartsReading(call: Call) {
    if call.job.Reader? then call.pc.Begun? else call.pc.Holding?
  }

  predicate Enabled(c: Codec, s: State, l: Label) {
    if l.Begin? then l.id !in s.calls else l.id in s.calls && CanStep(c, s, s.calls[l.id], l)
  }

  predicate CanStep(c: Codec, s: State, call: Call, l: Label) {
    match l
    case Begin(_, _) => false
    case Lock(_) => call.job.Writer? && call.pc.Begun? && s.lock.None?
    case Look(_) => StartsReading(call)
    case Open(_) => call.pc.Found?
    case Read(_, n) => call.pc.Reading? && call.pc.inode in s.data && |call.pc.got| <= n <= |s.data[call.pc.inode]|
    case Decode(_) => call.pc.Reading? && call.pc.inode in s.data && |call.pc.got| == |s.data[call.pc.inode]|
    case Create(_, inode) => call.job.Writer? && call.pc.Loaded? && inode !in s.data
    case Write(_, n) =>
      call.pc.Writing? && call.pc.temp in s.data && |s.data[call.pc.temp]| <= n <= |c.ser(call.pc.next)|
    case Rename(_) =>
      call.job.Writer? && call.pc.Writing? && call.pc.temp in s.data && |s.data[call.pc.temp]| == |c.ser(call.pc.next)|
    case Unlock(_) => call.pc.Renamed?
    case Abort(_) => true
  }

  function At(s: State, id: nat, pc: Pc): State
    requires id in s.calls
  {
    s.(calls := s.calls[id := s.calls[id].(pc := pc)])
  }

  function Released(s: State, id: nat): State {
    if s.lock == Some(id) then s.(lock := None) else s
  }

  function Next(c: Codec, s: State, l: Label): State
    requires Enabled(c, s, l)
  {
    if l.Begin? then s.(calls := s.calls[l.id := Call(l.job, Begun, |s.history|)]) else
    var call := s.calls[l.id];
    match l
    case Lock(id) => At(s, id, Holding).(lock := Some(id))
    case Look(id) => At(s, id, if s.dst.None? then Loaded(map[], |s.history|) else Found)
    case Open(id) => At(s, id, if s.dst.None? then Aborted else Reading(s.dst.value, "", |s.history|))
    case Read(id, n) => At(s, id, call.pc.(got := call.pc.got + s.data[call.pc.inode][|call.pc.got|..n]))
    case Decode(id) => At(s, id, Loaded(Parse(c, call.pc.got), call.pc.at))
    case Create(id, inode) =>
      At(s, id, Writing(inode, call.pc.cache[call.job.path := call.job.info])).(data := s.data[inode := ""])
    case Write(id, n) => s.(data := s.data[call.pc.temp := c.ser(call.pc.next)[..n]])
    case Rename(id) =>
      At(s, id, Renamed(|s.history|)).(
        dst := Some(call.pc.temp), history := s.history + [Update(id, call.job.path, call.job.info)])
    case Unlock(id) => Released(At(s, id, Finished(call.pc.at)), id)
    case Abort(id) => Released(At(s, id, Aborted), id)
  }

  /** Where a run of labels leads; none if some label is not enabled. */
  function Run(c: Codec, s: State, labels: seq<Label>): Option<State>
    decreases |labels|
  {
    if labels == [] then Some(s)
    else if Enabled(c, s, labels[0]) then Run(c, Next(c, s, labels[0]), labels[1..])
    else None
  }

  /** No call yet; the file is absent or holds any text, well formed or not. */
  predicate Init(s: State) {
    && s.lock.None? && s.calls == map[] && s.history == []
    && (s.dst.Some? ==> s.dst.value in s.data)
  }

  // The invariant.

  predicate Holds(call: Call) {
    && call.job.Writer?
    && (|| call.pc.Holding? || call.pc.Found? || call.pc.Reading? || call.pc.Loaded?
        || call.pc.Writing? || call.pc.Renamed?)
  }

  /** The file is what its inserts make of it. */
  ghost predicate FileOk(c: Codec, base: Cache, s: State) {
    && (s.dst.Some? ==> s.dst.value in s.data)
    && View(c, s) == Fold(base, s.history)
    && (s.history != [] ==> s.dst.Some? && s.data[s.dst.value] == c.ser(Fold(base, s.history)))
  }

  /** What a call has seen: the file as it was after some of the renames, none before it began. */
  predicate Seen(base: Cache, s: State, call: Call, at: nat, cache: Cache) {
    && call.since <= at <= |s.history|
    && cache == Fold(base, s.history[..at])
    && (call.job.Writer? ==> at == |s.history|)
  }

  predicate Recorded(s: State, id: nat, job: Job, at: nat) {
    job.Writer? && at < |s.history| && s.history[at] == Update(id, job.path, job.info)
  }

  ghost predicate CallOk(c: Codec, base: Cache, s: State, id: nat, call: Call) {
    && call.since <= |s.history|
    && (s.lock == Some(id) <==> Holds(call))
    && match call.pc
       case Begun => true
       case Holding => call.job.Writer?
       case Found => s.dst.Some?
       case Reading(inode, got, at) =>
         inode in s.data && got <= s.data[inode] && Seen(base, s, call, at, Parse(c, s.data[inode]))
       case Loaded(cache, at) => Seen(base, s, call, at, cache)
       case Writing(temp, next) =>
         && call.job.Writer? && temp in s.data && s.dst != Some(temp)
         && s.data[temp] <= c.ser(next)
         && next == Fold(base, s.history)[call.job.path := call.job.info]
       case Renamed(at) => Recorded(s, id, call.job, at)
       case Finished(at) => Recorded(s, id, call.job, at)
       case Aborted => true
  }

  /** A temporary file that is being written is not being read. */
  predicate Apart(s: State) {
    forall i, j :: i in s.calls && j in s.calls && s.calls[i].pc.Writing? && s.calls[j].pc.Reading?
      ==> s.calls[i].pc.temp != s.calls[j].pc.inode
  }

  predicate Past(pc: Pc) { pc.Renamed? || pc.Finished? || pc.Aborted? }

  /** Every call is in the history at most once, and only after its rename. */
  predicate Once(s: State) {
    && (forall i, j :: 0 <= i < j < |s.history| ==> s.history[i].id != s.history[j].id)
    && (forall i :: 0 <= i < |s.history| ==> s.history[i].id in s.calls && Past(s.calls[s.history[i].id].pc))
  }

  ghost predicate CallsOk(c: Codec, base: Cache, s: State) {
    forall id :: id in s.calls ==> CallOk(c, base, s, id, s.calls[id])
  }

  ghost predicate Inv(c: Codec, base: Cache, s: State) {
    FileOk(c, base, s) && CallsOk(c, base, s) && Apart(s) && Once(s) && (s.lock.Some? ==> s.lock.value in s.calls)
  }

  lemma {:induction false} InvInit(c: Codec, s: State)
    requires RoundTrips(c) && Init(s)
    ensures Inv(c, View(c, s), s)
  {
  }

  /** Only call `id` has moved; only it, holding the lock, may have touched a file or the name. */
  ghost predicate Moved(s: State, t: State, id: nat) {
    && id in t.calls
    && (forall j :: j in t.calls && j != id ==> j in s.calls && t.calls[j] == s.calls[j])
    && (forall j :: j != id ==> (t.lock == Some(j) <==> s.lock == Some(j)))
    && (s.dst.Some? ==> t.dst.Some?)
    && s.history <= t.history
    && (s.lock == Some(id) || (t.data == s.data && t.dst == s.dst && t.history == s.history))
  }

  /** No file that another call is reading has changed. */
  predicate ReadsKept(s: State, t: State, id: nat) {
    forall j :: j in s.calls && j != id && s.calls[j].pc.Reading? && s.calls[j].pc.inode in s.data ==>
      s.calls[j].pc.inode in t.data && t.data[s.calls[j].pc.inode] == s.data[s.calls[j].pc.inode]
  }

  lemma {:induction false} SeenKept(base: Cache, s: State, t: State, call: Call, at: nat, cache: Cache)
    requires Seen(base, s, call, at, cache) && s.history <= t.history
    requires call.job.Writer? ==> t.history == s.history
    ensures Seen(base, t, call, at, cache)
  {
    assert t.history[..at] == s.history[..at];
  }

  lemma {:induction false} OtherKept(c: Codec, base: Cache, s: State, t: State, id: nat, j: nat)
    requires Moved(s, t, id) && ReadsKept(s, t, id)
    requires j in s.calls && j != id && CallOk(c, base, s, j, s.calls[j])
    ensures CallOk(c, base, t, j, s.calls[j])
  {
    var call := s.calls[j];
    match call.pc
    case Reading(inode, got, at) => SeenKept(base, s, t, call, at, Parse(c, s.data[inode]));
    case Loaded(cache, at) => SeenKept(base, s, t, call, at, cache);
    case _ =>
  }

  lemma {:induction false} CallsKept(c: Codec, base: Cache, s: State, t: State, id: nat)
    requires Moved(s, t, id) && ReadsKept(s, t, id)
    requires CallsOk(c, base, s) && CallOk(c, base, t, id, t.calls[id])
    ensures CallsOk(c, base, t)
  {
    forall j | j in t.calls ensures CallOk(c, base, t, j, t.calls[j]) {
      if j != id {
        OtherKept(c, base, s, t, id, j);
      }
    }
  }

  /** A step that changes no file keeps the invariant if the moving call keeps its part. */
  lemma {:induction false} QuietStep(c: Codec, base: Cache, s: State, t: State, id: nat)
    requires Inv(c, base, s) && Moved(s, t, id)
    requires t.data == s.data && t.dst == s.dst && t.history == s.history
    requires forall j :: j in s.calls ==> j in t.calls
    requires t.lock.Some? ==> t.lock.value in t.calls
    requires CallOk(c, base, t, id, t.calls[id])
    requires t.calls[id].pc.Reading? ==>
      || (id in s.calls && s.calls[id].pc.Reading? && s.calls[id].pc.inode == t.calls[id].pc.inode)
      || s.dst == Some(t.calls[id].pc.inode)
    requires !t.calls[id].pc.Writing?
    requires id in s.calls && Past(s.calls[id].pc) ==> Past(t.calls[id].pc)
    ensures Inv(c, base, t)
  {
    CallsKept(c, base, s, t, id);
    assert Once(t);
    forall i, j | i in t.calls && j in t.calls && t.calls[i].pc.Writing? && t.calls[j].pc.Reading?
      ensures t.calls[i].pc.temp != t.calls[j].pc.inode
    {
      assert i in s.calls && CallOk(c, base, s, i, s.calls[i]);
    }
  }

  lemma {:induction false} InvBegin(c: Codec, base: Cache, s: State, l: Label)
    requires Inv(c, base, s) && Enabled(c, s, l) && (l.Begin? || l.Lock?)
    ensures Inv(c, base, Next(c, s, l))
  {
    QuietStep(c, base, s, Next(c, s, l), l.id);
  }

  lemma {:induction false} InvLook(c: Codec, base: Cache, s: State, l: Label)
    requires Inv(c, base, s) && Enabled(c, s, l) && l.Look?
    ensures Inv(c, base, Next(c, s, l))
  {
    assert s.history[..|s.history|] == s.history;
    assert CallOk(c, base, s, l.id, s.calls[l.id]);
    QuietStep(c, base, s, Next(c, s, l), l.id);
  }

  lemma {:induction false} InvOpen(c: Codec, base: Cache, s: State, l: Label)
    requires Inv(c, base, s) && Enabled(c, s, l) && l.Open?
    ensures Inv(c, base, Next(c, s, l))
  {
    assert s.history[..|s.history|] == s.history;
    assert CallOk(c, base, s, l.id, s.calls[l.id]);
    QuietStep(c, base, s, Next(c, s, l), l.id);
  }

  lemma {:induction false} LongerPrefix(whole: string, got: string, n: nat)
    requires got <= whole && |got| <= n <= |whole|
    ensures got + whole[|got|..n] <= whole
  {
    assert got + whole[|got|..n] == whole[..n];
  }

  lemma {:induction false} InvContents(c: Codec, base: Cache, s: State, l: Label)
    requires Inv(c, base, s) && Enabled(c, s, l) && (l.Read? || l.Decode?)
    ensures Inv(c, base, Next(c, s, l))
  {
    var call := s.calls[l.id];
    assert CallOk(c, base, s, l.id, call);
    if l.Read? {
      LongerPrefix(s.data[call.pc.inode], call.pc.got, l.upTo);
    } else {
      assert call.pc.got == s.data[call.pc.inode];
    }
    QuietStep(c, base, s, Next(c, s, l), l.id);
  }

  lemma {:induction false} InvRelease(c: Codec, base: Cache, s: State, l: Label)
    requires Inv(c, base, s) && Enabled(c, s, l) && (l.Unlock? || l.Abort?)
    ensures Inv(c, base, Next(c, s, l))
  {
    assert CallOk(c, base, s, l.id, s.calls[l.id]);
    QuietStep(c, base, s, Next(c, s, l), l.id);
  }

  /** Whoever is between reading and renaming holds the lock, so there is one. */
  lemma {:induction false} OnlyWriter(c: Codec, base: Cache, s: State, i: nat, j: nat)
    requires CallsOk(c, base, s)
    requires i in s.calls && j in s.calls && Holds(s.calls[i]) && Holds(s.calls[j])
    ensures i == j
  {
    assert CallOk(c, base, s, i, s.calls[i]) && CallOk(c, base, s, j, s.calls[j]);
  }

  /** A step that changes one temporary file, of the call that holds the lock. */
  lemma {:induction false} TempStep(c: Codec, base: Cache, s: State, t: State, id: nat, temp: nat, text: string)
    requires Inv(c, base, s) && Moved(s, t, id) && s.lock == Some(id) && id in s.calls && !Past(s.calls[id].pc)
    requires t.data == s.data[temp := text] && t.dst == s.dst && t.history == s.history && t.lock == s.lock
    requires forall j :: j in s.calls ==> j in t.calls
    requires t.calls[id].pc.Writing? && t.calls[id].pc.temp == temp && CallOk(c, base, t, id, t.calls[id])
    requires forall j :: j in s.calls && j != id && s.calls[j].pc.Reading? ==> s.calls[j].pc.inode != temp
    ensures Inv(c, base, t)
  {
    CallsKept(c, base, s, t, id);
    assert FileOk(c, base, t);
    forall i, j | i in t.calls && j in t.calls && t.calls[i].pc.Writing? && t.calls[j].pc.Reading?
      ensures t.calls[i].pc.temp != t.calls[j].pc.inode
    {
      assert CallOk(c, base, t, i, t.calls[i]);
      OnlyWriter(c, base, t, i, id);
    }
  }

  lemma {:induction false} InvCreate(c: Codec, base: Cache, s: State, l: Label)
    requires Inv(c, base, s) && Enabled(c, s, l) && l.Create?
    ensures Inv(c, base, Next(c, s, l))
  {
    var t := Next(c, s, l);
    assert s.history[..|s.history|] == s.history;
    assert CallOk(c, base, s, l.id, s.calls[l.id]);
    forall j | j in s.calls && j != l.id && s.calls[j].pc.Reading? ensures s.calls[j].pc.inode != l.inode {
      assert CallOk(c, base, s, j, s.calls[j]);
    }
    TempStep(c, base, s, t, l.id, l.inode, "");
  }

  lemma {:induction false} InvWrite(c: Codec, base: Cache, s: State, l: Label)
    requires Inv(c, base, s) && Enabled(c, s, l) && l.Write?
    ensures Inv(c, base, Next(c, s, l))
  {
    var t := Next(c, s, l);
    var pc := s.calls[l.id].pc;
    assert CallOk(c, base, s, l.id, s.calls[l.id]);
    TempStep(c, base, s, t, l.id, pc.temp, c.ser(pc.next)[..l.upTo]);
  }

  lemma {:induction false} FoldSnoc(base: Cache, h: seq<Update>, u: Update)
    ensures Fold(base, h + [u]) == Fold(base, h)[u.path := u.info]
  {
    assert (h + [u])[..|h|] == h;
  }

  lemma {:induction false} RenameFile(c: Codec, base: Cache, s: State, l: Label)
    requires RoundTrips(c) && Inv(c, base, s) && Enabled(c, s, l) && l.Rename?
    ensures FileOk(c, base, Next(c, s, l))
  {
    var call := s.calls[l.id];
    assert CallOk(c, base, s, l.id, call);
    FoldSnoc(base, s.history, Update(l.id, call.job.path, call.job.info));
    assert s.data[call.pc.temp] == c.ser(call.pc.next);
    assert c.de(c.ser(call.pc.next)) == Some(call.pc.next);
  }

  lemma {:induction false} RenameOnce(s: State, t: State, id: nat, u: Update)
    requires Once(s) && id in s.calls && !Past(s.calls[id].pc) && u.id == id
    requires t.history == s.history + [u]
    requires forall j :: j in s.calls ==> j in t.calls && (j != id ==> t.calls[j] == s.calls[j])
    requires t.calls[id].pc.Renamed?
    ensures Once(t)
  {
    forall i, j | 0 <= i < j < |t.history| ensures t.history[i].id != t.history[j].id {
      assert t.history[i] == s.history[i];
    }
  }

  lemma {:induction false} InvRename(c: Codec, base: Cache, s: State, l: Label)
    requires RoundTrips(c) && Inv(c, base, s) && Enabled(c, s, l) && l.Rename?
    ensures Inv(c, base, Next(c, s, l))
  {
    var t := Next(c, s, l);
    var job := s.calls[l.id].job;
    RenameFile(c, base, s, l);
    assert CallOk(c, base, s, l.id, s.calls[l.id]);
    assert CallOk(c, base, t, l.id, t.calls[l.id]);
    CallsKept(c, base, s, t, l.id);
    RenameOnce(s, t, l.id, Update(l.id, job.path, job.info));
  }

  lemma {:induction false} InvNext(c: Codec, base: Cache, s: State, l: Label)
    requires RoundTrips(c) && Inv(c, base, s) && Enabled(c, s, l)
    ensures Inv(c, base, Next(c, s, l))
  {
    match l
    case Begin(_, _) => InvBegin(c, base, s, l);
    case Lock(_) => InvBegin(c, base, s, l);
    case Look(_) => InvLook(c, base, s, l);
    case Open(_) => InvOpen(c, base, s, l);
    case Read(_, _) => InvContents(c, base, s, l);
    case Decode(_) => InvContents(c, base, s, l);
    case Create(_, _) => InvCreate(c, base, s, l);
    case Write(_, _) => InvWrite(c, base, s, l);
    case Rename(_) => InvRename(c, base, s, l);
    case Unlock(_) => InvRelease(c, base, s, l);
    case Abort(_) => InvRelease(c, base, s, l);
  }
}
