/** What every run of the cache protocol guarantees, for any number of calls in any interleaving. */
module CacheTheorems {
  import opened Values
  import opened CacheProtocol

  lemma {:induction false} RunKeeps(c: Codec, base: Cache, s: State, labels: seq<Label>)
    requires RoundTrips(c) && Inv(c, base, s) && Run(c, s, labels).Some?
    ensures Inv(c, base, Run(c, s, labels).value)
    decreases |labels|
  {
    if labels != [] {
      InvNext(c, base, s, labels[0]);
      RunKeeps(c, base, Next(c, s, labels[0]), labels[1..]);
    }
  }

  ghost predicate Reaches(c: Codec, start: State, labels: seq<Label>, s: State) {
    RoundTrips(c) && Init(start) && Run(c, start, labels) == Some(s)
  }

  lemma {:induction false} ReachableInv(c: Codec, start: State, labels: seq<Label>, s: State)
    requires Reaches(c, start, labels, s)
    ensures Inv(c, View(c, start), s)
  {
    InvInit(c, start);
    RunKeeps(c, View(c, start), start, labels);
  }

  /** The callers of rename, in order. */
  function Renamers(labels: seq<Label>): seq<nat> {
    if labels == [] then [] else (if labels[0].Rename? then [labels[0].id] else []) + Renamers(labels[1..])
  }

  function Ids(h: seq<Update>): (ids: seq<nat>)
    ensures |ids| == |h| && forall i :: 0 <= i < |h| ==> ids[i] == h[i].id
  {
    seq(|h|, i requires 0 <= i < |h| => h[i].id)
  }

  lemma {:induction false} HistoryIsRenames(c: Codec, s: State, labels: seq<Label>)
    requires Run(c, s, labels).Some?
    ensures Ids(Run(c, s, labels).value.history) == Ids(s.history) + Renamers(labels)
    decreases |labels|
  {
    if labels != [] {
      var t := Next(c, s, labels[0]);
      HistoryIsRenames(c, t, labels[1..]);
      assert Ids(t.history) == Ids(s.history) + if labels[0].Rename? then [labels[0].id] else [];
    }
  }

  /** At every moment the file is complete, and it is the fold of all updates in the order of the renames. */
  lemma {:induction false} FileIsFold(c: Codec, start: State, labels: seq<Label>, s: State)
    requires Reaches(c, start, labels, s)
    ensures Ids(s.history) == Renamers(labels)
    ensures View(c, s) == Fold(View(c, start), s.history)
    ensures s.history != [] ==> s.dst.Some? && s.dst.value in s.data && s.data[s.dst.value] == c.ser(View(c, s))
    ensures s.history == [] ==> View(c, s) == View(c, start)
  {
    ReachableInv(c, start, labels, s);
    HistoryIsRenames(c, start, labels);
    assert Ids(start.history) == [];
  }

  /** The last update of a path, at or after a given one. */
  predicate LastFor(h: seq<Update>, k: nat, path: string) {
    k < |h| && h[k].path == path && forall i :: k < i < |h| ==> h[i].path != path
  }

  lemma {:induction false} FoldLast(base: Cache, h: seq<Update>, at: nat)
    requires at < |h|
    ensures exists k: nat :: at <= k && LastFor(h, k, h[at].path)
    ensures forall k: nat :: LastFor(h, k, h[at].path) ==>
      h[at].path in Fold(base, h) && Fold(base, h)[h[at].path] == h[k].info
    decreases |h|
  {
    var path, n := h[at].path, |h| - 1;
    if h[n].path == path {
      assert LastFor(h, n, path);
    } else {
      FoldLast(base, h[..n], at);
      var k: nat :| at <= k && LastFor(h[..n], k, path);
      assert LastFor(h, k, path);
      forall k: nat | LastFor(h, k, path) ensures path in Fold(base, h) && Fold(base, h)[path] == h[k].info {
        assert LastFor(h[..n], k, path);
      }
    }
  }

  /** No update is lost: the update of a call that has finished is in the history exactly once,
      and its path has in the file the value of the path's last update, which is this one or a later one. */
  lemma {:induction false} NoLostUpdate(c: Codec, start: State, labels: seq<Label>, s: State, id: nat)
    requires Reaches(c, start, labels, s)
    requires id in s.calls && s.calls[id].pc.Finished?
    ensures var call := s.calls[id];
      && Recorded(s, id, call.job, call.pc.at)
      && (forall i :: 0 <= i < |s.history| && s.history[i].id == id ==> i == call.pc.at)
      && exists k: nat :: call.pc.at <= k && LastFor(s.history, k, call.job.path)
                     && call.job.path in View(c, s) && View(c, s)[call.job.path] == s.history[k].info
  {
    ReachableInv(c, start, labels, s);
    var call := s.calls[id];
    assert CallOk(c, View(c, start), s, id, call);
    FoldLast(View(c, start), s.history, call.pc.at);
    var k: nat :| call.pc.at <= k && LastFor(s.history, k, call.job.path);
  }

  /** An unlocked reader gets the file as it was after some number of renames, all whole, and at
      least those that came before it began; once it has found the file it can open it. */
  lemma {:induction false} ReaderSeesWhole(c: Codec, start: State, labels: seq<Label>, s: State, id: nat)
    requires Reaches(c, start, labels, s) && id in s.calls
    ensures s.calls[id].pc.Loaded? ==>
      s.calls[id].since <= s.calls[id].pc.at <= |s.history|
      && s.calls[id].pc.cache == Fold(View(c, start), s.history[..s.calls[id].pc.at])
    ensures s.calls[id].pc.Found? ==> s.dst.Some?
  {
    ReachableInv(c, start, labels, s);
    assert CallOk(c, View(c, start), s, id, s.calls[id]);
  }

  /** Whoever is between taking the lock and giving it back is alone. */
  lemma {:induction false} MutualExclusion(c: Codec, start: State, labels: seq<Label>, s: State, i: nat, j: nat)
    requires Reaches(c, start, labels, s)
    requires i in s.calls && j in s.calls && Holds(s.calls[i]) && Holds(s.calls[j])
    ensures i == j
  {
    ReachableInv(c, start, labels, s);
    OnlyWriter(c, View(c, start), s, i, j);
  }

  /** A path that no update names keeps what it had at the start. */
  lemma {:induction false} OthersStay(c: Codec, start: State, labels: seq<Label>, s: State, path: string)
    requires Reaches(c, start, labels, s) && forall i :: 0 <= i < |s.history| ==> s.history[i].path != path
    ensures path in View(c, s) <==> path in View(c, start)
    ensures path in View(c, s) ==> View(c, s)[path] == View(c, start)[path]
  {
    FileIsFold(c, start, labels, s);
    FoldOthers(View(c, start), s.history, path);
  }

  lemma {:induction false} FoldOthers(base: Cache, h: seq<Update>, path: string)
    requires forall i :: 0 <= i < |h| ==> h[i].path != path
    ensures path in Fold(base, h) <==> path in base
    ensures path in Fold(base, h) ==> Fold(base, h)[path] == base[path]
    decreases |h|
  {
    if h != [] {
      FoldOthers(base, h[..|h| - 1], path);
    }
  }

  /** An inode that no file has yet. */
  lemma {:induction false} FreeInode(data: map<nat, string>) returns (inode: nat)
    ensures inode !in data
  {
    inode := Above(data.Keys);
  }

  lemma {:induction false} Above(ids: set<nat>) returns (n: nat)
    ensures forall i :: i in ids ==> i < n
    decreases |ids|
  {
    n := 0;
    if ids != {} {
      var i :| i in ids;
      var m := Above(ids - {i});
      n := if i < m then m else i + 1;
      forall j | j in ids ensures j < n {
        assert j == i || j in ids - {i};
      }
    }
  }

  /** What the holder of the lock does next. */
  function NextOf(c: Codec, s: State, id: nat, inode: nat): Label
    requires id in s.calls
  {
    match s.calls[id].pc
    case Holding => Look(id)
    case Found => Open(id)
    case Reading(node, got, _) =>
      if node in s.data && |got| < |s.data[node]| then Read(id, |s.data[node]|) else Decode(id)
    case Loaded(_, _) => Create(id, inode)
    case Writing(temp, next) =>
      if temp in s.data && |s.data[temp]| < |c.ser(next)| then Write(id, |c.ser(next)|) else Rename(id)
    case _ => Unlock(id)
  }

  /**
   * No deadlock: whoever holds the lock is a writer that has not given it back and has a next step, which never ends
   * in an abort; and if it stops instead, the lock is free.
   */
  lemma {:induction false} HolderGoesOn(c: Codec, start: State, labels: seq<Label>, s: State, id: nat)
    returns (l: Label)
    requires Reaches(c, start, labels, s) && s.lock == Some(id)
    ensures id in s.calls && s.calls[id].job.Writer? && l.id == id && !l.Abort? && Enabled(c, s, l)
    ensures !Next(c, s, l).calls[id].pc.Aborted? && (l.Unlock? <==> Next(c, s, l).lock.None?)
    ensures Next(c, s, Abort(id)).lock.None?
  {
    ReachableInv(c, start, labels, s);
    var inode := FreeInode(s.data);
    assert CallOk(c, View(c, start), s, id, s.calls[id]);
    l := NextOf(c, s, id, inode);
  }

  lemma {:induction false} LaterSince(c: Codec, s: State, labels: seq<Label>, n: nat, id: nat)
    requires Run(c, s, labels).Some? && n <= |s.history|
    requires id in s.calls ==> n <= s.calls[id].since
    requires id in Run(c, s, labels).value.calls
    ensures n <= Run(c, s, labels).value.calls[id].since
    decreases |labels|
  {
    if labels != [] {
      LaterSince(c, Next(c, s, labels[0]), labels[1..], n, id);
    }
  }

  lemma {:induction false} RunAppend(c: Codec, s: State, labels: seq<Label>, more: seq<Label>)
    requires Run(c, s, labels).Some?
    ensures Run(c, s, labels + more) == Run(c, Run(c, s, labels).value, more)
    decreases |labels|
  {
    if labels == [] {
      assert labels + more == more;
    } else {
      assert (labels + more)[1..] == labels[1..] + more;
      RunAppend(c, Next(c, s, labels[0]), labels[1..], more);
    }
  }

  /** A read that begins after another has ended sees the same renames and maybe more. */
  lemma {:induction false} ReadsAreMonotone(
    c: Codec, start: State, labels: seq<Label>, s: State, more: seq<Label>, t: State, a: nat, b: nat)
    requires Reaches(c, start, labels, s) && Run(c, s, more) == Some(t)
    requires a in s.calls && s.calls[a].pc.Loaded?
    requires b !in s.calls && b in t.calls && t.calls[b].pc.Loaded?
    ensures s.calls[a].pc.at <= t.calls[b].pc.at
  {
    ReaderSeesWhole(c, start, labels, s, a);
    LaterSince(c, s, more, |s.history|, b);
    RunAppend(c, start, labels, more);
    ReaderSeesWhole(c, start, labels + more, t, b);
  }

  lemma {:induction false} AtAgain(s: State, id: nat, p: Pc, q: Pc)
    requires id in s.calls
    ensures At(At(s, id, p), id, q) == At(s, id, q)
  {
    assert s.calls[id := s.calls[id].(pc := p)][id := s.calls[id].(pc := q)] == s.calls[id := s.calls[id].(pc := q)];
  }

  lemma {:induction false} ContentsRun(c: Codec, s: State, id: nat, inode: nat, text: string)
    requires id in s.calls && s.calls[id].pc.Found? && s.dst == Some(inode) && inode in s.data && s.data[inode] == text
    ensures var n := |s.history|;
      && Next(c, s, Open(id)) == At(s, id, Reading(inode, "", n))
      && Next(c, At(s, id, Reading(inode, "", n)), Read(id, |text|)) == At(s, id, Reading(inode, text, n))
      && Next(c, At(s, id, Reading(inode, text, n)), Decode(id)) == At(s, id, Loaded(View(c, s), n))
  {
    var n := |s.history|;
    AtAgain(s, id, Reading(inode, "", n), Reading(inode, text, n));
    AtAgain(s, id, Reading(inode, text, n), Loaded(View(c, s), n));
    assert text[0..|text|] == text && "" + text == text;
  }

  /** The disk, with the two operations as they run when nothing else does. */
  class Disk {
    const codec: Codec
    var state: State
    ghost const base: Cache

    ghost predicate Valid()
      reads this
    {
      RoundTrips(codec) && Inv(codec, base, state)
    }

    constructor (codec: Codec, start: State)
      requires RoundTrips(codec) && Init(start)
      ensures Valid() && state == start && base == View(codec, start) && this.codec == codec
    {
      this.codec := codec;
      state := start;
      base := View(codec, start);
      InvInit(codec, start);
    }

    method Do(l: Label)
      requires Valid() && Enabled(codec, state, l)
      modifies this
      ensures Valid() && state == Next(codec, old(state), l)
    {
      InvNext(codec, base, state, l);
      state := Next(codec, state, l);
    }

    /** Opening the file and reading it to its end, inside call `id`. */
    method Contents(id: nat)
      requires Valid() && id in state.calls && state.calls[id].pc.Found?
      modifies this
      ensures Valid()
      ensures state == At(old(state), id, Loaded(View(codec, old(state)), |old(state).history|))
    {
      assert CallOk(codec, base, state, id, state.calls[id]);
      var text := state.data[state.dst.value];
      ContentsRun(codec, state, id, state.dst.value, text);
      Do(Open(id));
      Do(Read(id, |text|));
      Do(Decode(id));
    }

    /** From the existence test to the decoded map, inside call `id`. */
    method Load(id: nat)
      requires Valid() && id in state.calls && StartsReading(state.calls[id])
      modifies this
      ensures Valid()
      ensures state == At(old(state), id, Loaded(View(codec, old(state)), |old(state).history|))
    {
      Do(Look(id));
      if state.calls[id].pc.Found? {
        Contents(id);
      }
    }

    /** A read returns what the file means and changes nothing on disk. */
    method ReadInfoCache(id: nat) returns (cache: Cache)
      requires Valid() && id !in state.calls
      modifies this
      ensures Valid() && cache == View(codec, old(state)) && View(codec, state) == View(codec, old(state))
      ensures old(state).dst.None? ==> cache == map[]
      ensures
        old(state).dst.Some? ==>
          && old(state).dst.value in old(state).data
          && match codec.de(old(state).data[old(state).dst.value])
             case None => cache == map[]
             case Some(m) => cache == m
      ensures state.history == old(state).history && state.lock == old(state).lock
    {
      Do(Begin(id, Reader));
      Load(id);
      cache := state.calls[id].pc.cache;
    }

    /** When the lock is free a writer gets through, and the file gains exactly its update. */
    method WriteInfoCache(id: nat, path: string, info: Info, temp: nat)
      requires Valid() && id !in state.calls && state.lock.None? && temp !in state.data
      modifies this
      ensures Valid() && state.lock.None? && id in state.calls && state.calls[id].pc.Finished?
      ensures View(codec, state) == View(codec, old(state))[path := info]
      ensures state.history == old(state).history + [Update(id, path, info)]
    {
      Do(Begin(id, Writer(path, info)));
      Do(Lock(id));
      Load(id);
      Do(Create(id, temp));
      Do(Write(id, |codec.ser(state.calls[id].pc.next)|));
      Do(Rename(id));
      FoldSnoc(base, old(state).history, Update(id, path, info));
      Do(Unlock(id));
    }
  }
}
