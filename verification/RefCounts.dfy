/**
 * The reference counted tree of neumo-dvb-demux.c: feeds objects hold output feeds and embedded
 * streams, embedded streams hold bbframes streams, and each bbframes stream owns a feeds object.
 * Users who give back what they hold in reverse order never see any of it go too early or too late,
 * unless a parsed header has changed the number that a release looks a stream up by.
 */
module RefCounts {

  const FE_FEEDS := 0
  const DEFAULT_FEEDS := 1
  const UNSPECIFIED_ISI := 256

  // ---------------------------------------------------------------------------------------------
  // The objects
  // ---------------------------------------------------------------------------------------------

  /** `owner` is the bbframes stream it belongs to, -1 for the two the demux itself has. */
  datatype Feeds = Feeds(count: nat, owner: int, outputs: set<int>, embedded: map<int, int>)

  datatype Emb = Emb(count: nat, parent: int, pid: int, bbfs: map<int, int>)

  /** `key` is what it is registered under; every header parsed for it overwrites `isi`. */
  datatype Bbf = Bbf(count: nat, emb: int, key: int, feeds: int, isi: int)

  /** A feed in use: where it is listed, and which handle stands for it. */
  datatype Slot = Slot(feeds: int, handle: int)

  /**
   * What a user holds. Below the roots a feeds object is reached through a stream the same user
   * holds already: that is `support`, -1 at the roots.
   */
  datatype Handle = Stream(user: int, support: int, bbf: int) | Output(user: int, support: int, slot: int)

  /** Objects that have been freed are in none of the maps; numbers are never used again. */
  datatype State = State(feeds: map<int, Feeds>, embs: map<int, Emb>, bbfs: map<int, Bbf>, slots: map<int, Slot>,
                         handles: map<int, Handle>, next: int)

  ghost function Users(s: State, b: int): set<int> {
    set h | h in s.handles && s.handles[h].Stream? && s.handles[h].bbf == b
  }

  ghost function EmbUsers(s: State, e: int): set<int> {
    set h | h in s.handles && s.handles[h].Stream? && s.handles[h].bbf in s.bbfs && s.bbfs[s.handles[h].bbf].emb == e
  }

  // ---------------------------------------------------------------------------------------------
  // The invariant
  // ---------------------------------------------------------------------------------------------

  ghost predicate Roots(s: State) {
    && s.next > 1 && FE_FEEDS in s.feeds && DEFAULT_FEEDS in s.feeds
    && (forall f :: f in s.feeds ==> 0 <= f < s.next && (s.feeds[f].owner == -1 <==> f <= DEFAULT_FEEDS))
  }

  ghost predicate Owners(s: State) {
    forall f :: f in s.feeds && s.feeds[f].owner != -1 ==>
      s.feeds[f].owner in s.bbfs && s.bbfs[s.feeds[f].owner].feeds == f
  }

  ghost predicate BbfsOk(s: State) {
    forall b :: b in s.bbfs ==>
      && 0 <= b < s.next && s.bbfs[b].emb in s.embs && s.bbfs[b].emb < b < s.bbfs[b].feeds
      && s.bbfs[b].feeds in s.feeds && s.feeds[s.bbfs[b].feeds].owner == b
      && s.bbfs[b].key in s.embs[s.bbfs[b].emb].bbfs && s.embs[s.bbfs[b].emb].bbfs[s.bbfs[b].key] == b
  }

  ghost predicate EmbsOk(s: State) {
    forall e :: e in s.embs ==>
      && 0 <= e < s.next && s.embs[e].parent in s.feeds && s.embs[e].parent < e
      && s.embs[e].pid in s.feeds[s.embs[e].parent].embedded && s.feeds[s.embs[e].parent].embedded[s.embs[e].pid] == e
  }

  ghost predicate Streams(s: State) {
    forall e, i :: e in s.embs && i in s.embs[e].bbfs ==>
      && s.embs[e].bbfs[i] in s.bbfs
      && s.bbfs[s.embs[e].bbfs[i]].emb == e && s.bbfs[s.embs[e].bbfs[i]].key == i
  }

  ghost predicate Embedded(s: State) {
    forall f, p :: f in s.feeds && p in s.feeds[f].embedded ==>
      && s.feeds[f].embedded[p] in s.embs
      && s.embs[s.feeds[f].embedded[p]].parent == f && s.embs[s.feeds[f].embedded[p]].pid == p
  }

  ghost predicate SlotsOk(s: State) {
    forall o :: o in s.slots ==>
      && s.slots[o].feeds in s.feeds && o in s.feeds[s.slots[o].feeds].outputs
      && s.slots[o].handle in s.handles && s.handles[s.slots[o].handle].Output?
      && s.handles[s.slots[o].handle].slot == o
  }

  ghost predicate Listed(s: State) {
    forall f, o :: f in s.feeds && o in s.feeds[f].outputs ==> o in s.slots && s.slots[o].feeds == f
  }

  /** A reference by the owner, one by each listed output feed, one by each embedded stream. */
  ghost predicate FeedsCounts(s: State) {
    forall f :: f in s.feeds ==> s.feeds[f].count == 1 + |s.feeds[f].outputs| + |s.feeds[f].embedded|
  }

  function One(b: bool): nat {
    if b then 1 else 0
  }

  /** While an operation is under way one reference to `pe` and one to `pb` are held by nobody. */
  ghost predicate EmbCounts(s: State, pe: int) {
    forall e :: e in s.embs ==> 0 < s.embs[e].count == |EmbUsers(s, e)| + One(e == pe)
  }

  ghost predicate BbfCounts(s: State, pb: int) {
    forall b :: b in s.bbfs ==> 0 < s.bbfs[b].count == |Users(s, b)| + One(b == pb)
  }

  ghost predicate HandlesOk(s: State) {
    forall h :: h in s.handles ==>
      && 0 <= h < s.next
      && match s.handles[h]
         case Stream(_, _, b) => b in s.bbfs
         case Output(_, _, o) => o in s.slots && s.slots[o].handle == h
  }

  /** The feeds object a handle was acquired in. */
  ghost function Parent(s: State, h: Handle): int
    requires match h
             case Stream(_, _, b) => b in s.bbfs && s.bbfs[b].emb in s.embs
             case Output(_, _, o) => o in s.slots
  {
    match h
    case Stream(_, _, b) => s.embs[s.bbfs[b].emb].parent
    case Output(_, _, o) => s.slots[o].feeds
  }

  /** `k` is an earlier stream of the same user whose feeds object is `parent`. */
  ghost predicate Supports(s: State, k: int, user: int, parent: int) {
    if k == -1 then parent <= DEFAULT_FEEDS
    else k in s.handles && s.handles[k].Stream? && s.handles[k].user == user
         && s.handles[k].bbf in s.bbfs && s.bbfs[s.handles[k].bbf].feeds == parent
  }

  ghost predicate Supported(s: State)
    requires BbfsOk(s) && HandlesOk(s)
  {
    forall h :: h in s.handles ==>
      s.handles[h].support < h && Supports(s, s.handles[h].support, s.handles[h].user, Parent(s, s.handles[h]))
  }

  /** Up and down the tree the pointers agree. */
  ghost predicate Tree(s: State) {
    Roots(s) && Owners(s) && BbfsOk(s) && EmbsOk(s) && Streams(s) && Embedded(s)
  }

  ghost predicate Held(s: State) {
    Roots(s) && SlotsOk(s) && Listed(s) && BbfsOk(s) && HandlesOk(s) && Supported(s)
  }

  ghost predicate Inv(s: State, pe: int, pb: int) {
    Tree(s) && FeedsCounts(s) && Held(s) && EmbCounts(s, pe) && BbfCounts(s, pb)
  }

  // ---------------------------------------------------------------------------------------------
  // Acquiring a stream, step by step
  // ---------------------------------------------------------------------------------------------

  /** The embedded stream of a PID: found, or new with a reference to its parent. */
  function EmbOf(s: State, f: int, pid: int): int
    requires f in s.feeds
  {
    if pid in s.feeds[f].embedded then s.feeds[f].embedded[pid] else s.next
  }

  function GetEmb(s: State, f: int, pid: int): State
    requires f in s.feeds && (pid in s.feeds[f].embedded ==> s.feeds[f].embedded[pid] in s.embs)
  {
    var e := EmbOf(s, f, pid);
    if pid in s.feeds[f].embedded then
      s.(embs := s.embs[e := s.embs[e].(count := s.embs[e].count + 1)])
    else
      s.(embs := s.embs[e := Emb(1, f, pid, map[])], next := s.next + 1,
         feeds := s.feeds[f := s.feeds[f].(count := s.feeds[f].count + 1, embedded := s.feeds[f].embedded[pid := e])])
  }

  /** The same handles for the same streams. */
  ghost predicate SameStreams(s: State, t: State) {
    s.handles == t.handles &&
    forall h :: h in s.handles && s.handles[h].Stream? ==>
      && (s.handles[h].bbf in s.bbfs <==> s.handles[h].bbf in t.bbfs)
      && (s.handles[h].bbf in s.bbfs ==> s.bbfs[s.handles[h].bbf].emb == t.bbfs[s.handles[h].bbf].emb)
  }

  lemma SameUsers(s: State, t: State, b: int)
    requires SameStreams(s, t)
    ensures Users(s, b) == Users(t, b) && EmbUsers(s, b) == EmbUsers(t, b)
  {
    assert forall h :: h in EmbUsers(s, b) <==> h in EmbUsers(t, b);
  }

  lemma KeepsEmbCounts(s: State, t: State, pe: int, pe': int)
    requires SameStreams(s, t) && EmbCounts(s, pe)
    requires forall e :: e in t.embs && e in s.embs ==> t.embs[e].count + One(e == pe) == s.embs[e].count + One(e == pe')
    requires forall e :: e in t.embs && e !in s.embs ==> t.embs[e].count == One(e == pe') == 1 && EmbUsers(s, e) == {}
    requires forall e :: e in t.embs ==> t.embs[e].count > 0
    ensures EmbCounts(t, pe')
  {
    hide EmbUsers, SameStreams;
    forall e | e in t.embs ensures 0 < t.embs[e].count == |EmbUsers(t, e)| + One(e == pe') {
      SameUsers(s, t, e);
    }
  }

  lemma KeepsBbfCounts(s: State, t: State, pb: int, pb': int)
    requires SameStreams(s, t) && BbfCounts(s, pb)
    requires forall b :: b in t.bbfs && b in s.bbfs ==> t.bbfs[b].count + One(b == pb) == s.bbfs[b].count + One(b == pb')
    requires forall b :: b in t.bbfs && b !in s.bbfs ==> t.bbfs[b].count == One(b == pb') == 1 && Users(s, b) == {}
    requires forall b :: b in t.bbfs ==> t.bbfs[b].count > 0
    ensures BbfCounts(t, pb')
  {
    hide Users, SameStreams;
    forall b | b in t.bbfs ensures 0 < t.bbfs[b].count == |Users(t, b)| + One(b == pb') {
      SameUsers(s, t, b);
    }
  }

  lemma NoEmbUsers(s: State, e: int)
    requires BbfsOk(s) && e !in s.embs
    ensures EmbUsers(s, e) == {}
  {
    assert forall h :: h !in EmbUsers(s, e);
  }

  lemma NoUsers(s: State, b: int)
    requires HandlesOk(s) && b !in s.bbfs
    ensures Users(s, b) == {}
  {
    assert forall h :: h !in Users(s, b);
  }

  /** Nothing that handles depend on has changed. */
  lemma KeepsHeld(s: State, t: State)
    requires Held(s) && Roots(t) && BbfsOk(t) && t.handles == s.handles && t.slots == s.slots && t.next >= s.next
    requires forall b :: b in s.bbfs ==> b in t.bbfs && t.bbfs[b].emb == s.bbfs[b].emb && t.bbfs[b].feeds == s.bbfs[b].feeds
    requires forall e :: e in s.embs ==> e in t.embs && t.embs[e].parent == s.embs[e].parent
    requires forall f :: f in s.feeds ==> f in t.feeds && t.feeds[f].outputs == s.feeds[f].outputs
    requires forall f :: f in t.feeds && f !in s.feeds ==> t.feeds[f].outputs == {}
    ensures Held(t)
  {
    forall h | h in t.handles
      ensures t.handles[h].support < h && Supports(t, t.handles[h].support, t.handles[h].user, Parent(t, t.handles[h]))
    {
      assert Supports(s, s.handles[h].support, s.handles[h].user, Parent(s, s.handles[h]));
    }
  }

  lemma MapAdd<K, V>(m: map<K, V>, k: K, v: V)
    requires k !in m
    ensures |m[k := v]| == |m| + 1
  {
    assert m[k := v].Keys == m.Keys + {k};
    assert |m[k := v].Keys| == |m.Keys| + 1;
  }

  predicate EmbThere(s: State, f: int, pid: int) {
    f in s.feeds && (pid in s.feeds[f].embedded ==> s.feeds[f].embedded[pid] in s.embs)
  }

  lemma EmbFound(s: State, f: int, pid: int)
    requires Tree(s) && f in s.feeds
    ensures -1 !in s.embs && EmbThere(s, f, pid) && EmbOf(s, f, pid) >= 0 && (EmbOf(s, f, pid) in s.embs ==> pid in s.feeds[f].embedded)
    ensures pid in s.feeds[f].embedded ==> var e := s.feeds[f].embedded[pid]; s.embs[e].parent == f && s.embs[e].pid == pid
  {
  }

  lemma EmbFoundTree(s: State, f: int, pid: int)
    requires Tree(s) && EmbThere(s, f, pid) && pid in s.feeds[f].embedded
    ensures Tree(GetEmb(s, f, pid))
  {
  }

  lemma EmbNewTree(s: State, f: int, pid: int)
    requires Tree(s) && EmbThere(s, f, pid) && pid !in s.feeds[f].embedded
    ensures Tree(GetEmb(s, f, pid))
  {
  }

  lemma EmbFeedsCounts(s: State, f: int, pid: int)
    requires FeedsCounts(s) && EmbThere(s, f, pid)
    ensures FeedsCounts(GetEmb(s, f, pid))
  {
    if pid !in s.feeds[f].embedded { MapAdd(s.feeds[f].embedded, pid, s.next); }
  }

  lemma EmbHeld(s: State, f: int, pid: int)
    requires Held(s) && EmbThere(s, f, pid) && Roots(GetEmb(s, f, pid)) && BbfsOk(GetEmb(s, f, pid))
    requires pid !in s.feeds[f].embedded ==> s.next !in s.embs
    ensures Held(GetEmb(s, f, pid))
  {
    hide Held, Roots, BbfsOk;
    KeepsHeld(s, GetEmb(s, f, pid));
  }

  lemma EmbSameStreams(s: State, f: int, pid: int)
    requires EmbThere(s, f, pid)
    ensures SameStreams(s, GetEmb(s, f, pid))
  {
  }

  lemma EmbEmbCounts(s: State, f: int, pid: int)
    requires EmbThere(s, f, pid) && BbfsOk(s) && EmbCounts(s, -1) && -1 !in s.embs
    requires EmbOf(s, f, pid) >= 0 && (EmbOf(s, f, pid) in s.embs ==> pid in s.feeds[f].embedded)
    ensures EmbCounts(GetEmb(s, f, pid), EmbOf(s, f, pid))
  {
    hide Users, EmbUsers, BbfsOk, SameStreams;
    EmbSameStreams(s, f, pid);
    if pid !in s.feeds[f].embedded { NoEmbUsers(s, s.next); }
    KeepsEmbCounts(s, GetEmb(s, f, pid), -1, EmbOf(s, f, pid));
  }

  lemma EmbStreamCounts(s: State, f: int, pid: int)
    requires EmbThere(s, f, pid) && BbfsOk(s) && EmbCounts(s, -1) && BbfCounts(s, -1) && -1 !in s.embs
    requires EmbOf(s, f, pid) >= 0 && (EmbOf(s, f, pid) in s.embs ==> pid in s.feeds[f].embedded)
    ensures EmbCounts(GetEmb(s, f, pid), EmbOf(s, f, pid)) && BbfCounts(GetEmb(s, f, pid), -1)
  {
    hide Users, EmbUsers, BbfsOk, SameStreams, EmbCounts;
    EmbEmbCounts(s, f, pid);
    EmbSameStreams(s, f, pid);
    KeepsBbfCounts(s, GetEmb(s, f, pid), -1, -1);
  }

  /** There is an embedded stream for the PID now, with a reference nobody holds yet. */
  lemma GetEmbKeeps(s: State, f: int, pid: int)
    requires Inv(s, -1, -1) && f in s.feeds
    ensures EmbThere(s, f, pid)
    ensures var e := EmbOf(s, f, pid);
            var t := GetEmb(s, f, pid);
            Inv(t, e, -1) && e in t.embs && t.embs[e].parent == f && t.embs[e].pid == pid
  {
    hide Users, EmbUsers, Owners, Streams, SlotsOk, Listed, HandlesOk, Supported, EmbsOk, Embedded, BbfsOk, FeedsCounts,
      EmbCounts, BbfCounts;
    EmbFound(s, f, pid);
    if pid in s.feeds[f].embedded { EmbFoundTree(s, f, pid); } else { EmbNewTree(s, f, pid); }
    EmbFeedsCounts(s, f, pid);
    EmbHeld(s, f, pid);
    EmbStreamCounts(s, f, pid);
  }

  /** The bbframes stream of an ISI: found, or new with a feeds object of its own. */
  function BbfOf(s: State, e: int, isi: int): int
    requires e in s.embs
  {
    if isi in s.embs[e].bbfs then s.embs[e].bbfs[isi] else s.next
  }

  predicate BbfThere(s: State, e: int, isi: int) {
    e in s.embs && (isi in s.embs[e].bbfs ==> s.embs[e].bbfs[isi] in s.bbfs)
  }

  function GetBbf(s: State, e: int, isi: int): State
    requires BbfThere(s, e, isi)
  {
    var b := BbfOf(s, e, isi);
    if isi in s.embs[e].bbfs then
      s.(bbfs := s.bbfs[b := s.bbfs[b].(count := s.bbfs[b].count + 1)])
    else
      s.(bbfs := s.bbfs[b := Bbf(1, e, isi, b + 1, isi)], feeds := s.feeds[b + 1 := Feeds(1, b, {}, map[])],
         embs := s.embs[e := s.embs[e].(bbfs := s.embs[e].bbfs[isi := b])], next := s.next + 2)
  }

  lemma BbfFound(s: State, e: int, isi: int)
    requires Tree(s) && e in s.embs
    ensures BbfThere(s, e, isi) && -1 !in s.bbfs && BbfOf(s, e, isi) >= 0
    ensures BbfOf(s, e, isi) in s.bbfs ==> isi in s.embs[e].bbfs
    ensures isi in s.embs[e].bbfs ==> var x := s.bbfs[s.embs[e].bbfs[isi]]; x.emb == e && x.key == isi
    ensures s.next !in s.bbfs && s.next + 1 !in s.feeds
  {
  }

  lemma BbfFoundTree(s: State, e: int, isi: int)
    requires Tree(s) && BbfThere(s, e, isi) && isi in s.embs[e].bbfs
    ensures Tree(GetBbf(s, e, isi))
  {
  }

  lemma BbfNewTree(s: State, e: int, isi: int)
    requires Tree(s) && BbfThere(s, e, isi) && isi !in s.embs[e].bbfs
    ensures Tree(GetBbf(s, e, isi))
  {
    BbfNewEmbedded(s, e, isi);
  }

  lemma BbfNewEmbedded(s: State, e: int, isi: int)
    requires Tree(s) && BbfThere(s, e, isi) && isi !in s.embs[e].bbfs
    ensures EmbsOk(GetBbf(s, e, isi)) && Embedded(GetBbf(s, e, isi))
  {
  }

  lemma BbfHeld(s: State, e: int, isi: int)
    requires Held(s) && BbfThere(s, e, isi) && Roots(GetBbf(s, e, isi)) && BbfsOk(GetBbf(s, e, isi))
    requires isi !in s.embs[e].bbfs ==> s.next !in s.bbfs && s.next + 1 !in s.feeds
    ensures Held(GetBbf(s, e, isi))
  {
    hide Held, Roots, BbfsOk;
    KeepsHeld(s, GetBbf(s, e, isi));
  }

  lemma BbfStreamCounts(s: State, e: int, isi: int, pe: int)
    requires BbfThere(s, e, isi) && HandlesOk(s) && EmbCounts(s, pe) && BbfCounts(s, -1) && -1 !in s.bbfs
    requires BbfOf(s, e, isi) >= 0 && (BbfOf(s, e, isi) in s.bbfs ==> isi in s.embs[e].bbfs)
    ensures EmbCounts(GetBbf(s, e, isi), pe) && BbfCounts(GetBbf(s, e, isi), BbfOf(s, e, isi))
  {
    hide Users, EmbUsers;
    var b := BbfOf(s, e, isi);
    var t := GetBbf(s, e, isi);
    assert SameStreams(s, t);
    hide SameStreams;
    assert EmbCounts(t, pe) by {
      hide BbfCounts;
      KeepsEmbCounts(s, t, pe, pe);
    }
    assert BbfCounts(t, b) by {
      hide EmbCounts;
      if isi !in s.embs[e].bbfs { NoUsers(s, b); }
      KeepsBbfCounts(s, t, -1, b);
    }
  }

  lemma GetBbfKeeps(s: State, e: int, isi: int)
    requires Inv(s, e, -1) && e in s.embs
    ensures BbfThere(s, e, isi)
    ensures var b := BbfOf(s, e, isi);
            var t := GetBbf(s, e, isi);
            && Inv(t, e, b) && b in t.bbfs && t.bbfs[b].emb == e && t.bbfs[b].key == isi
            && e in t.embs && t.embs[e].parent == s.embs[e].parent && t.embs[e].pid == s.embs[e].pid
  {
    hide Users, EmbUsers, Owners, Streams, SlotsOk, Listed, Supported, EmbsOk, Embedded, BbfsOk, HandlesOk,
      EmbCounts, BbfCounts;
    BbfFound(s, e, isi);
    if isi in s.embs[e].bbfs { BbfFoundTree(s, e, isi); } else { BbfNewTree(s, e, isi); }
    BbfHeld(s, e, isi);
    BbfStreamCounts(s, e, isi, e);
  }

  lemma StillSupports(s: State, e: int, isi: int, k: int, user: int, parent: int)
    requires BbfThere(s, e, isi) && s.next !in s.bbfs && Supports(s, k, user, parent)
    ensures Supports(GetBbf(s, e, isi), k, user, parent)
  {
  }

  // ---------------------------------------------------------------------------------------------
  // Handles come and go
  // ---------------------------------------------------------------------------------------------

  function AddStream(s: State, user: int, support: int, b: int): State {
    s.(handles := s.handles[s.next := Stream(user, support, b)], next := s.next + 1)
  }

  lemma AddStreamHeld(s: State, user: int, support: int, b: int)
    requires Held(s) && b in s.bbfs && s.bbfs[b].emb in s.embs && support < s.next
    requires Supports(s, support, user, s.embs[s.bbfs[b].emb].parent)
    ensures Held(AddStream(s, user, support, b))
  {
    var t := AddStream(s, user, support, b);
    forall h | h in s.handles
      ensures t.handles[h].support < h && Supports(t, t.handles[h].support, t.handles[h].user, Parent(t, t.handles[h]))
    {
      assert Supports(s, s.handles[h].support, s.handles[h].user, Parent(s, s.handles[h]));
    }
  }

  lemma SetAdd(a: set<int>, b: set<int>, h: int)
    requires h !in a && forall k :: k in b <==> k in a || k == h
    ensures |b| == |a| + 1
  {
    assert forall k :: k in b <==> k in a + {h};
    assert b == a + {h};
  }

  lemma SetSame(a: set<int>, b: set<int>)
    requires forall k :: k in b <==> k in a
    ensures |b| == |a|
  {
    assert forall k :: k in a <==> k in b;
    assert a == b;
  }

  lemma AddStreamUsers(s: State, user: int, support: int, b: int, x: int)
    requires s.next !in s.handles
    ensures |Users(AddStream(s, user, support, b), x)| == |Users(s, x)| + One(x == b)
  {
    var before, after := Users(s, x), Users(AddStream(s, user, support, b), x);
    if x == b { SetAdd(before, after, s.next); } else { SetSame(before, after); }
  }

  lemma AddStreamEmbUsers(s: State, user: int, support: int, b: int, x: int)
    requires s.next !in s.handles && b in s.bbfs
    ensures |EmbUsers(AddStream(s, user, support, b), x)| == |EmbUsers(s, x)| + One(x == s.bbfs[b].emb)
  {
    var before, after := EmbUsers(s, x), EmbUsers(AddStream(s, user, support, b), x);
    if x == s.bbfs[b].emb { SetAdd(before, after, s.next); } else { SetSame(before, after); }
  }

  lemma AddStreamKeeps(s: State, user: int, support: int, b: int)
    requires b in s.bbfs && Inv(s, s.bbfs[b].emb, b) && support < s.next
    requires s.bbfs[b].emb in s.embs && Supports(s, support, user, s.embs[s.bbfs[b].emb].parent)
    ensures Inv(AddStream(s, user, support, b), -1, -1)
  {
    var t := AddStream(s, user, support, b);
    AddStreamTree(s, t);
    AddStreamHeld(s, user, support, b);
    AddStreamCounts(s, user, support, b);
  }

  lemma AddStreamCounts(s: State, user: int, support: int, b: int)
    requires b in s.bbfs && Tree(s) && HandlesOk(s) && EmbCounts(s, s.bbfs[b].emb) && BbfCounts(s, b)
    ensures var t := AddStream(s, user, support, b); EmbCounts(t, -1) && BbfCounts(t, -1)
  {
    hide Users, EmbUsers, Owners, Streams, Embedded;
    var t := AddStream(s, user, support, b);
    forall x | x in t.embs ensures 0 < t.embs[x].count == |EmbUsers(t, x)| + One(x == -1) { AddStreamEmbUsers(s, user, support, b, x); }
    forall x | x in t.bbfs ensures 0 < t.bbfs[x].count == |Users(t, x)| + One(x == -1) { AddStreamUsers(s, user, support, b, x); }
  }

  /** Handles and slots are no part of the tree. */
  lemma AddStreamTree(s: State, t: State)
    requires Tree(s) && t.feeds == s.feeds && t.embs == s.embs && t.bbfs == s.bbfs && t.next >= s.next
    ensures Tree(t)
  {
  }

  /** Given back last of what its user holds: nothing of the same user rests on it. */
  predicate Last(s: State, h: int) {
    h in s.handles && forall k :: k in s.handles && s.handles[k].user == s.handles[h].user ==> k <= h
  }

  function DropHandle(s: State, h: int): State {
    s.(handles := s.handles - {h})
  }

  lemma DropStreamHeld(s: State, h: int)
    requires Held(s) && Last(s, h) && s.handles[h].Stream?
    ensures Held(DropHandle(s, h))
  {
    var t := DropHandle(s, h);
    forall k | k in t.handles
      ensures t.handles[k].support < k && Supports(t, t.handles[k].support, t.handles[k].user, Parent(t, t.handles[k]))
    {
      assert Supports(s, s.handles[k].support, s.handles[k].user, Parent(s, s.handles[k]));
      assert s.handles[k].support != h;
    }
  }

  lemma DropStreamUsers(s: State, h: int, x: int)
    requires h in s.handles && s.handles[h].Stream?
    ensures |Users(s, x)| == |Users(DropHandle(s, h), x)| + One(x == s.handles[h].bbf)
  {
    var before, after := Users(s, x), Users(DropHandle(s, h), x);
    if x == s.handles[h].bbf { SetAdd(after, before, h); } else { SetSame(before, after); }
  }

  lemma DropStreamEmbUsers(s: State, h: int, x: int)
    requires h in s.handles && s.handles[h].Stream? && s.handles[h].bbf in s.bbfs
    ensures |EmbUsers(s, x)| == |EmbUsers(DropHandle(s, h), x)| + One(x == s.bbfs[s.handles[h].bbf].emb)
  {
    var before, after := EmbUsers(s, x), EmbUsers(DropHandle(s, h), x);
    if x == s.bbfs[s.handles[h].bbf].emb { SetAdd(after, before, h); } else { SetSame(before, after); }
  }

  lemma DropStreamKeeps(s: State, h: int)
    requires Inv(s, -1, -1) && Last(s, h) && s.handles[h].Stream?
    ensures s.handles[h].bbf in s.bbfs
    ensures var b := s.handles[h].bbf; Inv(DropHandle(s, h), s.bbfs[b].emb, b)
  {
    AddStreamTree(s, DropHandle(s, h));
    DropStreamHeld(s, h);
    DropStreamCounts(s, h);
  }

  lemma DropStreamCounts(s: State, h: int)
    requires h in s.handles && s.handles[h].Stream? && Tree(s) && HandlesOk(s) && EmbCounts(s, -1) && BbfCounts(s, -1)
    ensures s.handles[h].bbf in s.bbfs
    ensures var t, b := DropHandle(s, h), s.handles[h].bbf; EmbCounts(t, s.bbfs[b].emb) && BbfCounts(t, b)
  {
    hide Users, EmbUsers, Owners, Streams, Embedded;
    var t, b := DropHandle(s, h), s.handles[h].bbf;
    forall x | x in t.embs ensures 0 < t.embs[x].count == |EmbUsers(t, x)| + One(x == s.bbfs[b].emb) { DropStreamEmbUsers(s, h, x); }
    forall x | x in t.bbfs ensures 0 < t.bbfs[x].count == |Users(t, x)| + One(x == b) { DropStreamUsers(s, h, x); }
  }

  // ---------------------------------------------------------------------------------------------
  // The references of a stream given back
  // ---------------------------------------------------------------------------------------------

  /** Whoever holds something inside a stream's feeds object holds the stream itself. */
  lemma HeldInside(s: State, b: int, h: int)
    requires b in s.bbfs && Tree(s) && Held(s) && h in s.handles && Parent(s, s.handles[h]) == s.bbfs[b].feeds
    ensures s.handles[h].support in Users(s, b)
  {
    var f, k := s.bbfs[b].feeds, s.handles[h].support;
    assert Supports(s, k, s.handles[h].user, Parent(s, s.handles[h]));
    assert f > DEFAULT_FEEDS;
    assert s.feeds[f].owner == b;
  }

  lemma OutputHeld(s: State, f: int, o: int) returns (h: int)
    requires Held(s) && f in s.feeds && o in s.feeds[f].outputs
    ensures h in s.handles && Parent(s, s.handles[h]) == f
  {
    h := s.slots[o].handle;
  }

  lemma EmbeddedHeld(s: State, f: int, p: int, pe: int, pb: int) returns (h: int)
    requires Inv(s, pe, pb) && f in s.feeds && p in s.feeds[f].embedded && s.feeds[f].embedded[p] != pe
    ensures h in s.handles && Parent(s, s.handles[h]) == f
  {
    hide Users, BbfCounts;
    var e := s.feeds[f].embedded[p];
    h := SomeOf(EmbUsers(s, e));
  }

  lemma SomeOf(a: set<int>) returns (h: int)
    requires |a| > 0
    ensures h in a
  {
    if forall x :: x !in a { NoElements(a); }
    h :| h in a;
  }

  lemma NoElements(a: set<int>)
    requires forall x :: x !in a
    ensures |a| == 0
  {
    var none: set<int> := {};
    assert forall x :: x in a <==> x in none;
    assert a == none;
  }

  lemma Younger(s: State, b: int, p: int)
    requires Tree(s) && b in s.bbfs && s.bbfs[b].feeds in s.feeds && p in s.feeds[s.bbfs[b].feeds].embedded
    ensures s.feeds[s.bbfs[b].feeds].embedded[p] != s.bbfs[b].emb
  {
  }

  /** Once nobody holds a stream, its feeds object has neither outputs nor embedded streams. */
  lemma NothingInside(s: State, b: int)
    requires b in s.bbfs && Inv(s, s.bbfs[b].emb, b) && Users(s, b) == {}
    ensures s.bbfs[b].feeds in s.feeds
    ensures var f := s.feeds[s.bbfs[b].feeds]; f.outputs == {} && f.embedded == map[] && f.count == 1
  {
    hide Users, EmbUsers, EmbCounts, BbfCounts;
    var f := s.bbfs[b].feeds;
    forall h | h in s.handles ensures Parent(s, s.handles[h]) != f {
      if Parent(s, s.handles[h]) == f { HeldInside(s, b, h); }
    }
    forall o | o in s.feeds[f].outputs ensures false { var h := OutputHeld(s, f, o); }
    forall p | p in s.feeds[f].embedded ensures false {
      Younger(s, b, p);
      var h := EmbeddedHeld(s, f, p, s.bbfs[b].emb, b);
    }
    assert s.feeds[f].embedded == map[];
  }

  /** kref_put of a feeds object: the last reference frees it. */
  function PutFeeds(feeds: map<int, Feeds>, f: int): map<int, Feeds>
    requires f in feeds && feeds[f].count > 0
  {
    if feeds[f].count == 1 then feeds - {f} else feeds[f := feeds[f].(count := feeds[f].count - 1)]
  }

  /** kref_put of a bbframes stream, and with its last reference the end of it and of its feeds object. */
  function PutBbf(s: State, b: int): State
    requires b in s.bbfs && s.bbfs[b].count > 0 && s.bbfs[b].emb in s.embs
    requires s.bbfs[b].feeds in s.feeds && s.feeds[s.bbfs[b].feeds].count > 0
  {
    var x := s.bbfs[b];
    if x.count > 1 then s.(bbfs := s.bbfs[b := x.(count := x.count - 1)])
    else
      s.(bbfs := s.bbfs - {b}, feeds := PutFeeds(s.feeds, x.feeds),
         embs := s.embs[x.emb := s.embs[x.emb].(bbfs := s.embs[x.emb].bbfs - {x.isi})])
  }

  /** The entry that a release erases is the stream's own. */
  predicate InPlace(s: State, b: int) {
    b in s.bbfs && s.bbfs[b].isi == s.bbfs[b].key
  }

  lemma PutBbfReady(s: State, b: int)
    requires Tree(s) && FeedsCounts(s) && BbfCounts(s, b) && b in s.bbfs
    ensures s.bbfs[b].count > 0 && s.bbfs[b].emb in s.embs && s.bbfs[b].emb >= 0
    ensures s.bbfs[b].feeds in s.feeds && s.feeds[s.bbfs[b].feeds].count > 0 && -1 !in s.bbfs
  {
  }

  lemma NobodyHas(s: State, b: int)
    requires Users(s, b) == {}
    ensures forall h :: h in s.handles && s.handles[h].Stream? ==> s.handles[h].bbf != b
  {
    forall h | h in s.handles && s.handles[h].Stream? ensures s.handles[h].bbf != b {
      assert h in Users(s, b) <==> s.handles[h].bbf == b;
    }
  }

  lemma FreedFeedsCounts(s: State, b: int)
    requires FeedsCounts(s) && b in s.bbfs && s.bbfs[b].count == 1 && s.bbfs[b].emb in s.embs
    requires s.bbfs[b].feeds in s.feeds && s.feeds[s.bbfs[b].feeds].count == 1
    ensures FeedsCounts(PutBbf(s, b))
  {
  }

  lemma FreedDown(s: State, b: int)
    requires Tree(s) && b in s.bbfs && s.bbfs[b].count == 1 && s.bbfs[b].emb in s.embs
    requires s.bbfs[b].feeds in s.feeds && s.feeds[s.bbfs[b].feeds].count == 1
    requires s.feeds[s.bbfs[b].feeds].embedded == map[]
    requires InPlace(s, b)
    ensures var t := PutBbf(s, b); Streams(t) && Embedded(t) && EmbsOk(t)
  {
    hide Owners;
  }

  lemma FreedUp(s: State, b: int)
    requires Tree(s) && b in s.bbfs && s.bbfs[b].count == 1 && s.bbfs[b].emb in s.embs
    requires s.bbfs[b].feeds in s.feeds && s.feeds[s.bbfs[b].feeds].count == 1
    requires InPlace(s, b)
    ensures var t := PutBbf(s, b); Roots(t) && Owners(t) && BbfsOk(t)
  {
    hide Embedded, EmbsOk;
  }

  /** The last reference: stream and feeds object are gone, and nothing points to them. */
  lemma FreedTree(s: State, b: int)
    requires Tree(s) && FeedsCounts(s) && b in s.bbfs && s.bbfs[b].count == 1 && s.bbfs[b].emb in s.embs
    requires s.bbfs[b].feeds in s.feeds
    requires var f := s.feeds[s.bbfs[b].feeds]; f.outputs == {} && f.embedded == map[] && f.count == 1
    requires InPlace(s, b)
    ensures Tree(PutBbf(s, b)) && FeedsCounts(PutBbf(s, b))
  {
    hide Roots, Owners, BbfsOk, EmbsOk, Streams, Embedded, FeedsCounts;
    FreedFeedsCounts(s, b);
    FreedDown(s, b);
    FreedUp(s, b);
  }

  lemma FreedHeld(s: State, b: int)
    requires Tree(s) && Held(s) && b in s.bbfs && s.bbfs[b].count == 1 && s.bbfs[b].emb in s.embs && Users(s, b) == {}
    requires s.bbfs[b].feeds in s.feeds
    requires var f := s.feeds[s.bbfs[b].feeds]; f.outputs == {} && f.count == 1
    requires Roots(PutBbf(s, b)) && BbfsOk(PutBbf(s, b))
    ensures Held(PutBbf(s, b))
  {
    var t := PutBbf(s, b);
    NobodyHas(s, b);
    forall h | h in t.handles
      ensures t.handles[h].support < h && Supports(t, t.handles[h].support, t.handles[h].user, Parent(t, t.handles[h]))
    {
      assert Supports(s, s.handles[h].support, s.handles[h].user, Parent(s, s.handles[h]));
    }
  }

  lemma FreedCounts(s: State, b: int)
    requires Tree(s) && b in s.bbfs && s.bbfs[b].count == 1 && s.bbfs[b].emb in s.embs && Users(s, b) == {}
    requires s.bbfs[b].feeds in s.feeds && s.feeds[s.bbfs[b].feeds].count > 0
    requires EmbCounts(s, s.bbfs[b].emb) && BbfCounts(s, b) && HandlesOk(s)
    ensures EmbCounts(PutBbf(s, b), s.bbfs[b].emb) && BbfCounts(PutBbf(s, b), -1)
  {
    var t := PutBbf(s, b);
    NobodyHas(s, b);
    hide Users, EmbUsers, Owners, Streams, Embedded, EmbsOk;
    var pe := s.bbfs[b].emb;
    KeepsEmbCounts(s, t, pe, pe);
    KeepsBbfCounts(s, t, b, -1);
  }

  lemma PutBbfTree(s: State, b: int)
    requires Tree(s) && FeedsCounts(s) && b in s.bbfs && s.bbfs[b].count > 1 && s.bbfs[b].emb in s.embs
    requires s.bbfs[b].feeds in s.feeds && s.feeds[s.bbfs[b].feeds].count > 0
    ensures Tree(PutBbf(s, b)) && FeedsCounts(PutBbf(s, b))
  {
  }

  lemma PutBbfCounts(s: State, b: int)
    requires b in s.bbfs && s.bbfs[b].count > 1 && s.bbfs[b].emb in s.embs && -1 !in s.bbfs
    requires s.bbfs[b].feeds in s.feeds && s.feeds[s.bbfs[b].feeds].count > 0
    requires EmbCounts(s, s.bbfs[b].emb) && BbfCounts(s, b)
    ensures EmbCounts(PutBbf(s, b), s.bbfs[b].emb) && BbfCounts(PutBbf(s, b), -1)
  {
    hide Users, EmbUsers;
    KeepsEmbCounts(s, PutBbf(s, b), s.bbfs[b].emb, s.bbfs[b].emb);
    KeepsBbfCounts(s, PutBbf(s, b), b, -1);
  }

  /** The reference to the embedded stream is still to be given back. */
  lemma PutBbfKeeps(s: State, b: int)
    requires b in s.bbfs && Inv(s, s.bbfs[b].emb, b)
    requires s.bbfs[b].count == 1 ==> InPlace(s, b)
    ensures s.bbfs[b].count > 0 && s.bbfs[b].emb in s.embs && s.bbfs[b].emb >= 0
    ensures s.bbfs[b].feeds in s.feeds && s.feeds[s.bbfs[b].feeds].count > 0
    ensures Inv(PutBbf(s, b), s.bbfs[b].emb, -1) && s.bbfs[b].emb in PutBbf(s, b).embs
  {
    hide Users, EmbUsers, Owners, Streams, Embedded, EmbsOk, SlotsOk, Listed, Supported, EmbCounts, HandlesOk, BbfsOk;
    PutBbfReady(s, b);
    if s.bbfs[b].count > 1 {
      PutBbfTree(s, b);
      hide Roots, FeedsCounts;
      KeepsHeld(s, PutBbf(s, b));
      hide BbfCounts;
      PutBbfCounts(s, b);
    } else {
      assert |Users(s, b)| == 0;
      NothingInside(s, b);
      FreedTree(s, b);
      hide Roots, FeedsCounts;
      FreedHeld(s, b);
      FreedCounts(s, b);
    }
  }

  /** kref_put of an embedded stream: with the last reference it leaves its parent's table and gives up its reference. */
  function PutEmb(s: State, e: int): State
    requires e in s.embs && s.embs[e].count > 0
    requires s.embs[e].parent in s.feeds && s.feeds[s.embs[e].parent].count > 1
  {
    var x := s.embs[e];
    if x.count > 1 then s.(embs := s.embs[e := x.(count := x.count - 1)])
    else
      var f := s.feeds[x.parent];
      s.(embs := s.embs - {e}, feeds := s.feeds[x.parent := f.(count := f.count - 1, embedded := f.embedded - {x.pid})])
  }

  lemma PutEmbReady(s: State, e: int)
    requires Tree(s) && FeedsCounts(s) && EmbCounts(s, e) && e in s.embs
    ensures s.embs[e].count > 0 && -1 !in s.embs
    ensures s.embs[e].parent in s.feeds && s.feeds[s.embs[e].parent].count > 1
  {
    assert s.embs[e].pid in s.feeds[s.embs[e].parent].embedded;
  }

  /** No stream is left in an embedded stream nobody holds a stream of. */
  lemma NoStreams(s: State, e: int)
    requires Tree(s) && BbfCounts(s, -1) && e in s.embs && EmbUsers(s, e) == {} && HandlesOk(s) && -1 !in s.bbfs
    ensures s.embs[e].bbfs == map[]
  {
    forall i | i in s.embs[e].bbfs ensures false {
      var h := StreamHeld(s, e, i);
    }
    assert s.embs[e].bbfs == map[];
  }

  lemma StreamHeld(s: State, e: int, i: int) returns (h: int)
    requires Tree(s) && BbfCounts(s, -1) && e in s.embs && i in s.embs[e].bbfs && -1 !in s.bbfs
    ensures h in EmbUsers(s, e)
  {
    hide Owners, EmbsOk, Embedded;
    h := SomeOf(Users(s, s.embs[e].bbfs[i]));
  }

  lemma MapDrop<K, V>(m: map<K, V>, k: K)
    requires k in m
    ensures |m - {k}| == |m| - 1
  {
    assert (m - {k}).Keys == m.Keys - {k};
    assert |(m - {k}).Keys| == |m.Keys| - 1;
  }

  lemma PutEmbFeedsCounts(s: State, e: int)
    requires FeedsCounts(s) && e in s.embs && s.embs[e].count > 0
    requires s.embs[e].parent in s.feeds && s.feeds[s.embs[e].parent].count > 1
    requires s.embs[e].pid in s.feeds[s.embs[e].parent].embedded
    ensures FeedsCounts(PutEmb(s, e))
  {
    MapDrop(s.feeds[s.embs[e].parent].embedded, s.embs[e].pid);
  }

  lemma PutEmbTree(s: State, e: int)
    requires Tree(s) && e in s.embs && s.embs[e].count > 0
    requires s.embs[e].parent in s.feeds && s.feeds[s.embs[e].parent].count > 1
    requires s.embs[e].count == 1 ==> s.embs[e].bbfs == map[]
    ensures Tree(PutEmb(s, e))
  {
  }

  lemma PutEmbHeld(s: State, e: int)
    requires Held(s) && e in s.embs && s.embs[e].count > 0
    requires s.embs[e].parent in s.feeds && s.feeds[s.embs[e].parent].count > 1
    requires Roots(PutEmb(s, e)) && BbfsOk(PutEmb(s, e))
    requires s.embs[e].count == 1 ==> s.embs[e].bbfs == map[]
    ensures Held(PutEmb(s, e))
  {
    var t := PutEmb(s, e);
    forall h | h in t.handles
      ensures t.handles[h].support < h && Supports(t, t.handles[h].support, t.handles[h].user, Parent(t, t.handles[h]))
    {
      assert Supports(s, s.handles[h].support, s.handles[h].user, Parent(s, s.handles[h]));
    }
  }

  lemma PutEmbCounts(s: State, e: int)
    requires e in s.embs && s.embs[e].count > 0 && EmbCounts(s, e) && BbfCounts(s, -1) && -1 !in s.embs
    requires s.embs[e].parent in s.feeds && s.feeds[s.embs[e].parent].count > 1
    ensures EmbCounts(PutEmb(s, e), -1) && BbfCounts(PutEmb(s, e), -1)
  {
    hide Users, EmbUsers;
    KeepsEmbCounts(s, PutEmb(s, e), e, -1);
    KeepsBbfCounts(s, PutEmb(s, e), -1, -1);
  }

  lemma PutEmbKeeps(s: State, e: int)
    requires e in s.embs && Inv(s, e, -1)
    ensures s.embs[e].count > 0 && s.embs[e].parent in s.feeds && s.feeds[s.embs[e].parent].count > 1
    ensures s.embs[e].pid in s.feeds[s.embs[e].parent].embedded && s.feeds[s.embs[e].parent].embedded[s.embs[e].pid] == e
    ensures s.embs[e].count == 1 ==> s.embs[e].bbfs == map[]
    ensures Inv(PutEmb(s, e), -1, -1)
  {
    hide Users, EmbUsers, Owners, Streams, Embedded, SlotsOk, Listed, Supported, BbfCounts, HandlesOk, FeedsCounts;
    PutEmbReady(s, e);
    if s.embs[e].count == 1 {
      assert |EmbUsers(s, e)| == 0;
      NoMinusOne(s);
      NoStreams(s, e);
    }
    hide Roots, BbfsOk, EmbCounts;
    PutEmbTree(s, e);
    PutEmbFeedsCounts(s, e);
    PutEmbHeld(s, e);
    PutEmbCounts(s, e);
  }

  lemma NoMinusOne(s: State)
    requires BbfsOk(s)
    ensures -1 !in s.bbfs
  {
  }

  // ---------------------------------------------------------------------------------------------
  // Output feeds
  // ---------------------------------------------------------------------------------------------

  function AddOutput(s: State, user: int, support: int, o: int, f: int): State
    requires f in s.feeds
  {
    var x := s.feeds[f];
    s.(slots := s.slots[o := Slot(f, s.next)], feeds := s.feeds[f := x.(count := x.count + 1, outputs := x.outputs + {o})],
       handles := s.handles[s.next := Output(user, support, o)], next := s.next + 1)
  }

  function DropOutput(s: State, h: int): State
    requires h in s.handles && s.handles[h].Output? && s.handles[h].slot in s.slots
    requires var f := s.slots[s.handles[h].slot].feeds; f in s.feeds && s.feeds[f].count > 0
  {
    var o := s.handles[h].slot;
    var f := s.slots[o].feeds;
    var x := s.feeds[f];
    s.(slots := s.slots - {o}, feeds := s.feeds[f := x.(count := x.count - 1, outputs := x.outputs - {o})],
       handles := s.handles - {h})
  }

  /** Only output feeds, slots and their handles differ. */
  ghost predicate SameTree(s: State, t: State) {
    && t.embs == s.embs && t.bbfs == s.bbfs && t.next >= s.next && t.feeds.Keys == s.feeds.Keys
    && forall f :: f in s.feeds ==> t.feeds[f].owner == s.feeds[f].owner && t.feeds[f].embedded == s.feeds[f].embedded
  }

  lemma KeepsTree(s: State, t: State)
    requires Tree(s) && SameTree(s, t)
    ensures Tree(t)
  {
  }

  lemma OutputUsers(s: State, t: State, h: int, x: int)
    requires t.bbfs == s.bbfs
    requires (h !in s.handles && h in t.handles && t.handles[h].Output?) || (h in s.handles && s.handles[h].Output? && h !in t.handles)
    requires forall k :: k != h ==> (k in s.handles <==> k in t.handles)
    requires forall k :: k != h && k in s.handles ==> s.handles[k] == t.handles[k]
    ensures |Users(t, x)| == |Users(s, x)| && |EmbUsers(t, x)| == |EmbUsers(s, x)|
  {
    SetSame(Users(s, x), Users(t, x));
    SetSame(EmbUsers(s, x), EmbUsers(t, x));
  }

  lemma KeepsCounts(s: State, t: State, h: int)
    requires EmbCounts(s, -1) && BbfCounts(s, -1) && t.embs == s.embs && t.bbfs == s.bbfs
    requires (h !in s.handles && h in t.handles && t.handles[h].Output?) || (h in s.handles && s.handles[h].Output? && h !in t.handles)
    requires forall k :: k != h ==> (k in s.handles <==> k in t.handles)
    requires forall k :: k != h && k in s.handles ==> s.handles[k] == t.handles[k]
    ensures EmbCounts(t, -1) && BbfCounts(t, -1)
  {
    hide Users, EmbUsers;
    forall x | x in t.embs ensures 0 < t.embs[x].count == |EmbUsers(t, x)| + One(x == -1) { OutputUsers(s, t, h, x); }
    forall x | x in t.bbfs ensures 0 < t.bbfs[x].count == |Users(t, x)| + One(x == -1) { OutputUsers(s, t, h, x); }
  }

  lemma AddOutputFeeds(s: State, user: int, support: int, o: int, f: int)
    requires FeedsCounts(s) && f in s.feeds && o !in s.feeds[f].outputs
    ensures FeedsCounts(AddOutput(s, user, support, o, f))
  {
    SetAdd(s.feeds[f].outputs, s.feeds[f].outputs + {o}, o);
  }

  lemma AddOutputSlots(s: State, user: int, support: int, o: int, f: int)
    requires Roots(s) && SlotsOk(s) && Listed(s) && HandlesOk(s) && BbfsOk(s) && f in s.feeds && o !in s.slots
    ensures var t := AddOutput(s, user, support, o, f); Roots(t) && SlotsOk(t) && Listed(t) && HandlesOk(t) && BbfsOk(t)
  {
  }

  lemma AddOutputSupported(s: State, user: int, support: int, o: int, f: int)
    requires BbfsOk(s) && HandlesOk(s) && Supported(s) && SlotsOk(s)
    requires f in s.feeds && o !in s.slots && support < s.next && Supports(s, support, user, f)
    requires var t := AddOutput(s, user, support, o, f); BbfsOk(t) && HandlesOk(t)
    ensures Supported(AddOutput(s, user, support, o, f))
  {
    var t := AddOutput(s, user, support, o, f);
    forall h | h in t.handles
      ensures t.handles[h].support < h && Supports(t, t.handles[h].support, t.handles[h].user, Parent(t, t.handles[h]))
    {
      if h in s.handles && h != s.next {
        assert Supports(s, s.handles[h].support, s.handles[h].user, Parent(s, s.handles[h]));
      }
    }
  }

  lemma AddOutputHeld(s: State, user: int, support: int, o: int, f: int)
    requires Held(s) && f in s.feeds && o !in s.slots && support < s.next && Supports(s, support, user, f)
    ensures Held(AddOutput(s, user, support, o, f))
  {
    hide Roots, SlotsOk, Listed, BbfsOk, HandlesOk, Supported, Supports;
    AddOutputSlots(s, user, support, o, f);
    AddOutputSupported(s, user, support, o, f);
  }

  lemma AddOutputKeeps(s: State, user: int, support: int, o: int, f: int)
    requires Inv(s, -1, -1) && f in s.feeds && o !in s.slots && support < s.next && Supports(s, support, user, f)
    ensures Inv(AddOutput(s, user, support, o, f), -1, -1)
  {
    hide Users, EmbUsers, Owners, BbfsOk, EmbsOk, Streams, Embedded, SlotsOk, Supported, FeedsCounts, EmbCounts, BbfCounts, Roots;
    var t := AddOutput(s, user, support, o, f);
    assert s.next !in s.handles;
    KeepsTree(s, t);
    AddOutputFeeds(s, user, support, o, f);
    AddOutputHeld(s, user, support, o, f);
    KeepsCounts(s, t, s.next);
  }

  lemma OutputListed(s: State, h: int)
    requires Held(s) && FeedsCounts(s) && h in s.handles && s.handles[h].Output?
    ensures s.handles[h].slot in s.slots
    ensures var o := s.handles[h].slot;
            var f := s.slots[o].feeds;
            f in s.feeds && o in s.feeds[f].outputs && s.feeds[f].count > 1
  {
    var o := s.handles[h].slot;
    var f := s.slots[o].feeds;
    SetAdd(s.feeds[f].outputs - {o}, s.feeds[f].outputs, o);
  }

  lemma DropOutputFeeds(s: State, h: int)
    requires FeedsCounts(s) && h in s.handles && s.handles[h].Output? && s.handles[h].slot in s.slots
    requires var f := s.slots[s.handles[h].slot].feeds;
             f in s.feeds && s.feeds[f].count > 1 && s.handles[h].slot in s.feeds[f].outputs
    ensures FeedsCounts(DropOutput(s, h))
  {
    var f := s.slots[s.handles[h].slot].feeds;
    SetAdd(s.feeds[f].outputs - {s.handles[h].slot}, s.feeds[f].outputs, s.handles[h].slot);
  }

  lemma DropOutputHeld(s: State, h: int)
    requires Held(s) && Last(s, h) && s.handles[h].Output? && s.handles[h].slot in s.slots
    requires var f := s.slots[s.handles[h].slot].feeds; f in s.feeds && s.feeds[f].count > 1
    ensures Held(DropOutput(s, h))
  {
    var t := DropOutput(s, h);
    forall k | k in t.handles
      ensures t.handles[k].support < k && Supports(t, t.handles[k].support, t.handles[k].user, Parent(t, t.handles[k]))
    {
      assert Supports(s, s.handles[k].support, s.handles[k].user, Parent(s, s.handles[k]));
    }
  }

  lemma DropOutputKeeps(s: State, h: int)
    requires Inv(s, -1, -1) && Last(s, h) && s.handles[h].Output?
    ensures s.handles[h].slot in s.slots
    ensures var f := s.slots[s.handles[h].slot].feeds; f in s.feeds && s.feeds[f].count > 1
    ensures Inv(DropOutput(s, h), -1, -1)
  {
    hide Users, EmbUsers, Owners, BbfsOk, EmbsOk, Streams, Embedded, SlotsOk, Supported, FeedsCounts, EmbCounts, BbfCounts, Roots, Listed, HandlesOk;
    OutputListed(s, h);
    KeepsTree(s, DropOutput(s, h));
    DropOutputFeeds(s, h);
    DropOutputHeld(s, h);
    KeepsCounts(s, DropOutput(s, h), h);
  }

  // ---------------------------------------------------------------------------------------------
  // Counts add up
  // ---------------------------------------------------------------------------------------------

  ghost function Pick(keys: set<int>): (i: int)
    requires keys != {}
    ensures i in keys
  {
    NotEmpty(keys);
    var i :| i in keys; i
  }

  lemma NotEmpty(keys: set<int>)
    requires keys != {}
    ensures exists i :: i in keys
  {
    if forall i :: i !in keys { NoElements(keys); }
  }

  /** The counts of the bbframes streams under `keys`, added up. */
  ghost function Total(s: State, e: int, keys: set<int>): nat
    requires e in s.embs && keys <= s.embs[e].bbfs.Keys && forall i :: i in keys ==> s.embs[e].bbfs[i] in s.bbfs
    decreases |keys|
  {
    if keys == {} then 0 else
      var i := Pick(keys);
      s.bbfs[s.embs[e].bbfs[i]].count + Total(s, e, keys - {i})
  }

  ghost function UsersUnder(s: State, e: int, keys: set<int>): set<int>
    requires e in s.embs
  {
    set h | h in s.handles && s.handles[h].Stream? && s.handles[h].bbf in s.bbfs && s.bbfs[s.handles[h].bbf].emb == e
            && s.bbfs[s.handles[h].bbf].key in keys
  }

  lemma SplitUsers(s: State, e: int, keys: set<int>, i: int)
    requires Tree(s) && e in s.embs && i in keys && i in s.embs[e].bbfs
    ensures s.embs[e].bbfs[i] in s.bbfs
    ensures |UsersUnder(s, e, keys)| == |Users(s, s.embs[e].bbfs[i])| + |UsersUnder(s, e, keys - {i})|
  {
    var a, b, c := UsersUnder(s, e, keys), Users(s, s.embs[e].bbfs[i]), UsersUnder(s, e, keys - {i});
    assert forall h :: h in a <==> h in b + c;
    var none: set<int> := {};
    assert forall h :: h in b * c <==> h in none;
    SetSame(a, b + c);
    SetSame(b * c, none);
  }

  lemma {:induction false} TotalCountsUsers(s: State, e: int, keys: set<int>)
    requires Tree(s) && BbfCounts(s, -1) && e in s.embs && keys <= s.embs[e].bbfs.Keys
    ensures forall i :: i in keys ==> s.embs[e].bbfs[i] in s.bbfs
    ensures Total(s, e, keys) == |UsersUnder(s, e, keys)|
    decreases |keys|
  {
    hide Users, UsersUnder, Owners, Embedded, EmbsOk;
    if keys == {} {
      NoUsersUnder(s, e);
    } else {
      var i := Pick(keys);
      SplitUsers(s, e, keys, i);
      TotalCountsUsers(s, e, keys - {i});
    }
  }

  lemma NoUsersUnder(s: State, e: int)
    requires e in s.embs
    ensures |UsersUnder(s, e, {})| == 0
  {
    NoElements(UsersUnder(s, e, {}));
  }

  /** An embedded stream's count is the sum of its streams' counts, and a feeds object's count what it holds. */
  ghost predicate Conserved(s: State) {
    && (forall e :: e in s.embs ==>
          && (forall i :: i in s.embs[e].bbfs ==> s.embs[e].bbfs[i] in s.bbfs)
          && s.embs[e].count == Total(s, e, s.embs[e].bbfs.Keys))
    && (forall f :: f in s.feeds ==> s.feeds[f].count == 1 + |s.feeds[f].outputs| + |s.feeds[f].embedded|)
    && (forall e :: e in s.embs ==> s.embs[e].parent in s.feeds)
    && forall o :: o in s.slots ==> s.slots[o].feeds in s.feeds
  }

  lemma Conservation(s: State)
    requires Inv(s, -1, -1)
    ensures Conserved(s)
  {
    hide Users, EmbUsers, Owners, Embedded, Supported;
    forall e | e in s.embs
      ensures (forall i :: i in s.embs[e].bbfs ==> s.embs[e].bbfs[i] in s.bbfs)
              && s.embs[e].count == Total(s, e, s.embs[e].bbfs.Keys)
    {
      TotalCountsUsers(s, e, s.embs[e].bbfs.Keys);
      AllUsersUnder(s, e);
    }
  }

  lemma AllUsersUnder(s: State, e: int)
    requires Tree(s) && e in s.embs
    ensures |UsersUnder(s, e, s.embs[e].bbfs.Keys)| == |EmbUsers(s, e)|
  {
    SetSame(EmbUsers(s, e), UsersUnder(s, e, s.embs[e].bbfs.Keys));
  }

  // ---------------------------------------------------------------------------------------------
  // The demux
  // ---------------------------------------------------------------------------------------------

  class Demux {
    var feeds: map<int, Feeds>
    var embs: map<int, Emb>
    var bbfs: map<int, Bbf>
    /** The feeds object each output feed in use is listed in. */
    var parentFeeds: map<int, int>
    var next: int
    ghost var slots: map<int, Slot>
    ghost var handles: map<int, Handle>

    ghost function Now(): State
      reads this
    {
      State(feeds, embs, bbfs, slots, handles, next)
    }

    ghost predicate Valid()
      reads this
    {
      Inv(Now(), -1, -1) && parentFeeds.Keys == slots.Keys && forall o :: o in slots ==> parentFeeds[o] == slots[o].feeds
    }

    /** The two feeds objects every demux has. */
    constructor ()
      ensures Valid() && Now() == Started()
    {
      feeds := map[FE_FEEDS := Feeds(1, -1, {}, map[]), DEFAULT_FEEDS := Feeds(1, -1, {}, map[])];
      embs, bbfs, parentFeeds, next, slots, handles := map[], map[], map[], 2, map[], map[];
    }

    /** kref_get and kref_put of a feeds object. */
    method GetFeeds(f: int)
      requires f in feeds
      modifies `feeds
      ensures feeds == old(feeds)[f := old(feeds)[f].(count := old(feeds)[f].count + 1)]
    {
      feeds := feeds[f := feeds[f].(count := feeds[f].count + 1)];
    }

    method PutFeedsRef(f: int) returns (freed: bool)
      requires f in feeds && feeds[f].count > 0
      modifies `feeds
      ensures freed == (old(feeds)[f].count == 1) && feeds == PutFeeds(old(feeds), f)
    {
      freed := feeds[f].count == 1;
      feeds := if freed then feeds - {f} else feeds[f := feeds[f].(count := feeds[f].count - 1)];
    }

    /** The first half of dvbdmx_allocate_stid_stream_ and dvbdmx_allocate_t2mi_stream_. */
    method FindOrAllocEmb(f: int, pid: int) returns (e: int)
      requires EmbThere(Now(), f, pid) && next !in embs
      modifies `feeds, `embs, `next
      ensures e == EmbOf(old(Now()), f, pid) && Now() == GetEmb(old(Now()), f, pid)
    {
      if pid !in feeds[f].embedded {
        e := next;
        next := next + 1;
        GetFeeds(f);
        embs := embs[e := Emb(1, f, pid, map[])];
        feeds := feeds[f := feeds[f].(embedded := feeds[f].embedded[pid := e])];
      } else {
        e := feeds[f].embedded[pid];
        embs := embs[e := embs[e].(count := embs[e].count + 1)];
      }
    }

    /** dvb_dmx_find_or_alloc_bbf_stream */
    method FindOrAllocBbf(e: int, isi: int) returns (b: int)
      requires BbfThere(Now(), e, isi)
      modifies `feeds, `embs, `bbfs, `next
      ensures b == BbfOf(old(Now()), e, isi) && Now() == GetBbf(old(Now()), e, isi)
    {
      if isi !in embs[e].bbfs {
        b := next;
        next := next + 2;
        feeds := feeds[b + 1 := Feeds(1, b, {}, map[])];
        bbfs := bbfs[b := Bbf(1, e, isi, b + 1, isi)];
        embs := embs[e := embs[e].(bbfs := embs[e].bbfs[isi := b])];
      } else {
        b := embs[e].bbfs[isi];
        bbfs := bbfs[b := bbfs[b].(count := bbfs[b].count + 1)];
      }
    }

    /**
     * dvbdmx_allocate_stid_stream and dvbdmx_allocate_t2mi_stream, which differ in the feeds object
     * they take when none is given.
     */
    method AllocateStream(stid: bool, given: int, pid: int, embeddedIsi: int, ghost user: int, ghost support: int)
      returns (b: int, ghost h: int)
      requires Valid() && (given == -1 || given in feeds) && support < next
      requires Supports(Now(), support, user, if given != -1 then given else if stid then FE_FEEDS else DEFAULT_FEEDS)
      modifies this
      ensures Valid() && h !in old(handles) && handles == old(handles)[h := Stream(user, support, b)]
      ensures b in bbfs && bbfs[b].key == (if embeddedIsi < 0 then UNSPECIFIED_ISI else embeddedIsi)
      ensures bbfs[b].emb in embs && embs[bbfs[b].emb].pid == pid
      ensures embs[bbfs[b].emb].parent == if given != -1 then given else if stid then FE_FEEDS else DEFAULT_FEEDS
      ensures var f := if given != -1 then given else if stid then FE_FEEDS else DEFAULT_FEEDS;
              var isi := if embeddedIsi < 0 then UNSPECIFIED_ISI else embeddedIsi;
              && StreamThere(old(Now()), f, pid, isi) && Now() == Allocated(old(Now()), f, pid, isi, user, support)
    {
      hide Inv, Roots, GetEmb, GetBbf, Supports, EmbThere, BbfThere;
      var f := if given != -1 then given else if stid then FE_FEEDS else DEFAULT_FEEDS;
      var isi := if embeddedIsi < 0 then UNSPECIFIED_ISI else embeddedIsi;
      RootsThere(Now());
      AllocateKeeps(Now(), f, pid, isi, user, support);
      var e := FindOrAllocEmb(f, pid);
      b := FindOrAllocBbf(e, isi);
      h := next;
      handles := handles[h := Stream(user, support, b)];
      next := next + 1;
    }

    /** parse_bbheader, as far as release depends on it. */
    method ParseBbheader(b: int, isi: nat)
      requires Valid() && b in bbfs
      modifies `bbfs
      ensures Valid() && Now() == HeaderParsed(old(Now()), b, isi)
    {
      hide Inv;
      HeaderKeeps(Now(), b, isi);
      bbfs := bbfs[b := bbfs[b].(isi := isi)];
    }

    /** bbframes_stream_release up to its call of embedded_stream_release. */
    method PutBbfRef(b: int)
      requires b in bbfs && bbfs[b].count > 0 && bbfs[b].emb in embs
      requires bbfs[b].feeds in feeds && feeds[bbfs[b].feeds].count > 0
      modifies `feeds, `embs, `bbfs
      ensures Now() == PutBbf(old(Now()), b)
    {
      var x := bbfs[b];
      if x.count > 1 {
        bbfs := bbfs[b := x.(count := x.count - 1)];
      } else {
        var freed := PutFeedsRef(x.feeds);
        embs := embs[x.emb := embs[x.emb].(bbfs := embs[x.emb].bbfs - {x.isi})];
        bbfs := bbfs - {b};
      }
    }

    /**
     * embedded_stream_release: the parent is looked at after the reference to it has been given up.
     * `warned` is the WARN_ON about streams that are left.
     */
    method PutEmbRef(e: int) returns (warned: bool)
      requires e in embs && embs[e].count > 0
      requires embs[e].parent in feeds && feeds[embs[e].parent].count > 1
      modifies `feeds, `embs
      ensures Now() == PutEmb(old(Now()), e)
      ensures warned <==> old(embs)[e].count == 1 && old(embs)[e].bbfs != map[]
    {
      var x := embs[e];
      warned := x.count == 1 && |x.bbfs| != 0;
      assert x.bbfs == map[] <==> x.bbfs.Keys == {};
      if x.count > 1 {
        embs := embs[e := x.(count := x.count - 1)];
      } else {
        var freed := PutFeedsRef(x.parent);
        assert !freed;
        feeds := feeds[x.parent := feeds[x.parent].(embedded := feeds[x.parent].embedded - {x.pid})];
        embs := embs - {e};
      }
    }

    /**
     * dvbdmx_release_bbframes_stream, for the handle `h` its user acquired last. All is well afterwards
     * exactly when the stream is still in use, was still under its key, or took its embedded stream
     * with it; in the last case the latter was found empty exactly when the stream was under its key.
     */
    method ReleaseBbframesStream(b: int, ghost h: int) returns (warned: bool)
      requires Valid() && Last(Now(), h) && handles[h].Stream? && handles[h].bbf == b
      modifies this
      ensures handles == old(handles) - {h} && parentFeeds == old(parentFeeds)
      ensures Releasable(old(Now()), b) && Now() == Released(old(Now()), h)
      ensures Valid() <==> !LeavesEntry(old(Now()), h)
      ensures LeavesEntry(old(Now()), h) ==> Dangling(Now(), old(bbfs)[b].emb, old(bbfs)[b].key)
      ensures warned <==> old(embs)[old(bbfs)[b].emb].count == 1 && !InPlace(old(Now()), b)
      ensures old(|Users(Now(), b)|) == 1 ==> b !in bbfs
    {
      hide Inv, PutBbf, PutEmb, Users, Dangling, LeavesEntry;
      ghost var s := Now();
      ReleaseKeepsExactlyWhen(s, h);
      LeftInTable(s, h);
      ReleaseReady(s, h);
      handles := handles - {h};
      var e := bbfs[b].emb;
      PutBbfRef(b);
      warned := PutEmbRef(e);
    }

    /** dvb_demux_output_feed_add, for a free slot. */
    method AllocatePidStream(o: int, given: int, ghost user: int, ghost support: int) returns (ghost h: int)
      requires Valid() && o !in parentFeeds && (given == -1 || given in feeds) && support < next
      requires Supports(Now(), support, user, if given != -1 then given else DEFAULT_FEEDS)
      modifies this
      ensures Valid() && h !in old(handles) && handles == old(handles)[h := Output(user, support, o)]
      ensures o in parentFeeds && parentFeeds[o] == if given != -1 then given else DEFAULT_FEEDS
    {
      hide Inv, Supports;
      var f := if given != -1 then given else DEFAULT_FEEDS;
      ghost var s := Now();
      RootsThere(s);
      AddOutputKeeps(s, user, support, o, f);
      h := next;
      slots := slots[o := Slot(f, h)];
      parentFeeds := parentFeeds[o := f];
      feeds := feeds[f := feeds[f].(outputs := feeds[f].outputs + {o})];
      GetFeeds(f);
      handles := handles[h := Output(user, support, o)];
      next := next + 1;
      assert Now().feeds == AddOutput(s, user, support, o, f).feeds;
    }

    /** dvb_demux_output_feed_del, for the handle its user acquired last. */
    method ReleasePidStream(o: int, ghost h: int)
      requires Valid() && Last(Now(), h) && handles[h].Output? && handles[h].slot == o
      modifies this
      ensures Valid() && handles == old(handles) - {h} && parentFeeds == old(parentFeeds) - {o}
      ensures feeds.Keys == old(feeds).Keys
    {
      hide Inv;
      ghost var s := Now();
      DropOutputKeeps(s, h);
      var f := parentFeeds[o];
      parentFeeds, slots := parentFeeds - {o}, slots - {o};
      feeds := feeds[f := feeds[f].(outputs := feeds[f].outputs - {o})];
      var freed := PutFeedsRef(f);
      handles := handles - {h};
      assert Now() == DropOutput(s, h);
    }
  }

  lemma RootsThere(s: State)
    requires Inv(s, -1, -1)
    ensures FE_FEEDS in s.feeds && DEFAULT_FEEDS in s.feeds && s.next !in s.embs && s.next !in s.handles
  {
    hide EmbCounts, BbfCounts, FeedsCounts;
    NextIsNew(s);
  }

  /** All of an acquisition. */
  lemma AllocateKeeps(s: State, f: int, pid: int, isi: int, user: int, support: int)
    requires Inv(s, -1, -1) && f in s.feeds && support < s.next && Supports(s, support, user, f)
    ensures EmbThere(s, f, pid)
    ensures BbfThere(GetEmb(s, f, pid), EmbOf(s, f, pid), isi)
    ensures var e := EmbOf(s, f, pid);
            var s1 := GetEmb(s, f, pid);
            var b := BbfOf(s1, e, isi);
            var s2 := GetBbf(s1, e, isi);
            && Inv(AddStream(s2, user, support, b), -1, -1) && s2.next !in s.handles && s2.handles == s.handles
            && b in s2.bbfs && s2.bbfs[b].key == isi && s2.bbfs[b].emb == e
            && e in s2.embs && s2.embs[e].pid == pid && s2.embs[e].parent == f
  {
    hide EmbCounts, BbfCounts, Supported, Owners, Embedded, SlotsOk, Listed, FeedsCounts, Streams, EmbsOk, BbfsOk, HandlesOk;
    GetEmbKeeps(s, f, pid);
    var e, s1 := EmbOf(s, f, pid), GetEmb(s, f, pid);
    GetBbfKeeps(s1, e, isi);
    BbfFound(s1, e, isi);
    StillSupports(s1, e, isi, support, user, f);
    var s2 := GetBbf(s1, e, isi);
    NextIsNew(s2);
    AddStreamKeeps(s2, user, support, BbfOf(s1, e, isi));
  }

  /** All of a release. */
  lemma ReleaseKeeps(s: State, h: int)
    requires Inv(s, -1, -1) && Last(s, h) && s.handles[h].Stream?
    requires InPlace(s, s.handles[h].bbf) || |Users(s, s.handles[h].bbf)| > 1
    ensures var b := s.handles[h].bbf;
            && b in s.bbfs && s.bbfs[b].count > 0 && s.bbfs[b].emb in s.embs
            && s.bbfs[b].feeds in s.feeds && s.feeds[s.bbfs[b].feeds].count > 0
    ensures var b := s.handles[h].bbf;
            var e := s.bbfs[b].emb;
            var t := PutBbf(DropHandle(s, h), b);
            && e in t.embs && t.embs[e].count > 0 && t.embs[e].parent in t.feeds && t.feeds[t.embs[e].parent].count > 1
            && Inv(PutEmb(t, e), -1, -1) && (|Users(s, b)| == 1 ==> b !in t.bbfs)
  {
    hide Tree, Held, FeedsCounts, EmbCounts, Users;
    var b := s.handles[h].bbf;
    DropStreamKeeps(s, h);
    DropStreamUsers(s, h, b);
    PutBbfKeeps(DropHandle(s, h), b);
    PutEmbKeeps(PutBbf(DropHandle(s, h), b), s.bbfs[b].emb);
  }

  /** A demux without users. */
  function Started(): State {
    State(map[FE_FEEDS := Feeds(1, -1, {}, map[]), DEFAULT_FEEDS := Feeds(1, -1, {}, map[])],
          map[], map[], map[], map[], 2)
  }

  /** Both steps of an acquisition find what the tables promise. */
  predicate StreamThere(s: State, f: int, pid: int, isi: int) {
    EmbThere(s, f, pid) && BbfThere(GetEmb(s, f, pid), EmbOf(s, f, pid), isi)
  }

  /** An acquisition as a whole. */
  function Allocated(s: State, f: int, pid: int, isi: int, user: int, support: int): State
    requires StreamThere(s, f, pid, isi)
  {
    var e, s1 := EmbOf(s, f, pid), GetEmb(s, f, pid);
    AddStream(GetBbf(s1, e, isi), user, support, BbfOf(s1, e, isi))
  }

  /** parse_bbheader, which stores the ISI of the header in a stream. */
  function HeaderParsed(s: State, b: int, isi: int): State
    requires b in s.bbfs
  {
    s.(bbfs := s.bbfs[b := s.bbfs[b].(isi := isi)])
  }

  /** The invariant says nothing about that field. */
  lemma HeaderKeeps(s: State, b: int, isi: int)
    requires Inv(s, -1, -1) && b in s.bbfs
    ensures Inv(HeaderParsed(s, b, isi), -1, -1)
  {
    hide Users, EmbUsers, Owners, EmbsOk, Streams, Embedded, SlotsOk, Listed, HandlesOk, Supported;
    HeaderTree(s, b, isi);
    NoMinusOne(s);
    HeaderCounts(s, b, isi);
    hide EmbCounts, BbfCounts;
    KeepsHeld(s, HeaderParsed(s, b, isi));
  }

  lemma HeaderCounts(s: State, b: int, isi: int)
    requires EmbCounts(s, -1) && BbfCounts(s, -1) && b in s.bbfs
    ensures EmbCounts(HeaderParsed(s, b, isi), -1) && BbfCounts(HeaderParsed(s, b, isi), -1)
  {
    hide Users, EmbUsers;
    var t := HeaderParsed(s, b, isi);
    assert SameStreams(s, t);
    hide SameStreams;
    forall e | e in t.embs ensures 0 < t.embs[e].count == |EmbUsers(t, e)| + One(e == -1) { SameUsers(s, t, e); }
    forall x | x in t.bbfs ensures 0 < t.bbfs[x].count == |Users(t, x)| + One(x == -1) { SameUsers(s, t, x); }
  }

  lemma HeaderTree(s: State, b: int, isi: int)
    requires Tree(s) && b in s.bbfs
    ensures Tree(HeaderParsed(s, b, isi))
  {
  }

  // ---------------------------------------------------------------------------------------------
  // Releases that erase the wrong entry
  // ---------------------------------------------------------------------------------------------

  /** Both halves of a release, the stream and then its embedded stream. */
  function Released(s: State, h: int): State
    requires h in s.handles && s.handles[h].Stream? && Releasable(s, s.handles[h].bbf)
  {
    var b := s.handles[h].bbf;
    PutEmb(PutBbf(DropHandle(s, h), b), s.bbfs[b].emb)
  }

  /** What both halves need. */
  predicate Releasable(s: State, b: int) {
    && b in s.bbfs && s.bbfs[b].count > 0 && s.bbfs[b].emb in s.embs && s.embs[s.bbfs[b].emb].count > 0
    && s.bbfs[b].feeds in s.feeds && s.feeds[s.bbfs[b].feeds].count > 0
    && s.embs[s.bbfs[b].emb].parent in s.feeds && s.embs[s.bbfs[b].emb].parent != s.bbfs[b].feeds
    && s.feeds[s.embs[s.bbfs[b].emb].parent].count > 1
  }

  lemma StreamReleasable(s: State, h: int)
    requires Inv(s, -1, -1) && h in s.handles && s.handles[h].Stream?
    ensures Releasable(s, s.handles[h].bbf)
  {
    hide Owners, SlotsOk, Listed, Supported, Users, EmbUsers;
    var b := s.handles[h].bbf;
    var e := s.bbfs[b].emb;
    assert s.embs[e].pid in s.feeds[s.embs[e].parent].embedded;
  }

  /** `e` has an entry for a stream that is no longer there. */
  predicate Dangling(s: State, e: int, key: int) {
    e in s.embs && key in s.embs[e].bbfs && s.embs[e].bbfs[key] !in s.bbfs
  }

  /**
   * The last release of a stream takes its own entry out of the table exactly when its ISI is still
   * what it was registered under. If not, the entry stays behind and points to what has been freed.
   */
  lemma ErasedExactlyWhenInPlace(s: State, b: int)
    requires Tree(s) && b in s.bbfs && s.bbfs[b].count == 1 && s.bbfs[b].emb in s.embs
    requires s.bbfs[b].feeds in s.feeds && s.feeds[s.bbfs[b].feeds].count > 0
    ensures Streams(PutBbf(s, b)) <==> InPlace(s, b)
    ensures !InPlace(s, b) ==> Dangling(PutBbf(s, b), s.bbfs[b].emb, s.bbfs[b].key)
  {
    hide Owners, Embedded, EmbsOk, Roots;
  }

  /** Where the stream was the last in its embedded stream, it leaves the table empty exactly when in place. */
  lemma LeftInTable(s: State, h: int)
    requires Inv(s, -1, -1) && h in s.handles && s.handles[h].Stream?
    requires Releasable(s, s.handles[h].bbf)
    ensures var b := s.handles[h].bbf;
            var e := s.bbfs[b].emb;
            s.embs[e].count == 1 ==> (PutBbf(DropHandle(s, h), b).embs[e].bbfs == map[] <==> InPlace(s, b))
  {
    var b := s.handles[h].bbf;
    var e := s.bbfs[b].emb;
    if s.embs[e].count == 1 {
      SameEmbCount(s, h);
      UsersCounted(s, h);
      OnlyEntry(s, h);
    }
  }

  /** The table of an embedded stream with one user has one entry. */
  lemma OnlyEntry(s: State, h: int)
    requires Inv(s, -1, -1) && h in s.handles && s.handles[h].Stream?
    requires Releasable(s, s.handles[h].bbf) && s.embs[s.bbfs[s.handles[h].bbf].emb].count == 1
    ensures var b := s.handles[h].bbf; s.embs[s.bbfs[b].emb].bbfs == map[s.bbfs[b].key := b]
  {
    var b := s.handles[h].bbf;
    var e := s.bbfs[b].emb;
    NoMinusOne(s);
    assert h in EmbUsers(s, e);
    Singleton(EmbUsers(s, e), h);
    forall i | i in s.embs[e].bbfs ensures i == s.bbfs[b].key {
      var k := SomeOf(Users(s, s.embs[e].bbfs[i]));
      assert k in EmbUsers(s, e);
    }
  }

  lemma ReleaseReady(s: State, h: int)
    requires h in s.handles && s.handles[h].Stream? && Releasable(s, s.handles[h].bbf)
    ensures var b := s.handles[h].bbf;
            var e := s.bbfs[b].emb;
            var t := PutBbf(DropHandle(s, h), b);
            e in t.embs && t.embs[e].count == s.embs[e].count && t.embs[e].parent in t.feeds && t.feeds[t.embs[e].parent].count > 1
  {
  }

  /** Such an entry is there after a release when the embedded stream itself lives on. */
  ghost predicate LeavesEntry(s: State, h: int)
    requires h in s.handles && s.handles[h].Stream? && Releasable(s, s.handles[h].bbf)
  {
    var b := s.handles[h].bbf;
    |Users(s, b)| == 1 && !InPlace(s, b) && s.embs[s.bbfs[b].emb].count > 1
  }

  lemma Singleton(a: set<int>, h: int)
    requires h in a && |a| == 1
    ensures forall k :: k in a ==> k == h
  {
    SetAdd(a - {h}, a, h);
    assert forall k :: k in a && k != h ==> k in a - {h};
  }

  lemma OnlyHolder(a: set<int>, h: int)
    requires h in a && forall k :: k in a ==> k == h
    ensures |a| == 1
  {
    var none: set<int> := {};
    SetAdd(none, a, h);
  }

  /** The only user of an embedded stream is the only one of the stream. */
  lemma SameEmbCount(s: State, h: int)
    requires Inv(s, -1, -1) && h in s.handles && s.handles[h].Stream?
    ensures var b := s.handles[h].bbf; b in s.bbfs && s.bbfs[b].emb in s.embs
    ensures var b := s.handles[h].bbf; s.embs[s.bbfs[b].emb].count == 1 ==> |Users(s, b)| == 1
  {
    var b := s.handles[h].bbf;
    var e := s.bbfs[b].emb;
    NoMinusOne(s);
    assert h in Users(s, b) && h in EmbUsers(s, e);
    if s.embs[e].count == 1 {
      Singleton(EmbUsers(s, e), h);
      assert forall k :: k in Users(s, b) ==> k in EmbUsers(s, e);
      OnlyHolder(Users(s, b), h);
    }
  }

  lemma UsersCounted(s: State, h: int)
    requires Inv(s, -1, -1) && h in s.handles && s.handles[h].Stream?
    ensures var b := s.handles[h].bbf; b in s.bbfs && s.bbfs[b].count == |Users(s, b)| > 0
  {
    hide Users, EmbUsers;
    NoMinusOne(s);
  }

  /** Where the embedded stream goes as well, what is left of its table does not matter. */
  lemma ReleasedWithEmb(s: State, h: int)
    requires Inv(s, -1, -1) && h in s.handles && s.handles[h].Stream?
    requires var b := s.handles[h].bbf;
             Releasable(s, b) && s.embs[s.bbfs[b].emb].count == 1
    ensures var b := s.handles[h].bbf;
            var t := HeaderParsed(s, b, s.bbfs[b].key);
            Releasable(t, b) && Released(t, h) == Released(s, h)
  {
    SameEmbCount(s, h);
    UsersCounted(s, h);
    hide Inv, Users, PutEmb, PutBbf;
    var b := s.handles[h].bbf;
    var t := HeaderParsed(s, b, s.bbfs[b].key);
    PutBbfSame(DropHandle(s, h), DropHandle(t, h), b);
    PutEmbSame(PutBbf(DropHandle(s, h), b), PutBbf(DropHandle(t, h), b), s.bbfs[b].emb);
  }

  /** States that differ in the table of the embedded stream `e` at most. */
  predicate SameButTable(s: State, t: State, e: int) {
    && s.feeds == t.feeds && s.bbfs == t.bbfs && s.slots == t.slots && s.handles == t.handles && s.next == t.next
    && e in s.embs && e in t.embs && s.embs - {e} == t.embs - {e}
    && s.embs[e].count == t.embs[e].count && s.embs[e].parent == t.embs[e].parent && s.embs[e].pid == t.embs[e].pid
  }

  lemma PutBbfSame(s: State, t: State, b: int)
    requires Releasable(s, b) && s.bbfs[b].count == 1 && t == HeaderParsed(s, b, s.bbfs[b].key)
    ensures Releasable(t, b) && SameButTable(PutBbf(s, b), PutBbf(t, b), s.bbfs[b].emb)
  {
    assert s.bbfs - {b} == t.bbfs - {b};
    var e := s.bbfs[b].emb;
    assert PutBbf(s, b).embs - {e} == s.embs - {e};
    assert PutBbf(t, b).embs - {e} == s.embs - {e};
  }

  lemma PutEmbSame(s: State, t: State, e: int)
    requires SameButTable(s, t, e) && s.embs[e].count == 1
    requires s.embs[e].parent in s.feeds && s.feeds[s.embs[e].parent].count > 1
    ensures PutEmb(s, e) == PutEmb(t, e)
  {
  }

  /** Where it lives on, the entry is there for good. */
  lemma EntryStays(s: State, h: int)
    requires Inv(s, -1, -1) && h in s.handles && s.handles[h].Stream?
    requires Releasable(s, s.handles[h].bbf) && LeavesEntry(s, h)
    ensures var b := s.handles[h].bbf;
            !Inv(Released(s, h), -1, -1) && Dangling(Released(s, h), s.bbfs[b].emb, s.bbfs[b].key)
  {
    UsersCounted(s, h);
    hide Users, EmbUsers, Owners, EmbsOk, Embedded, Held, Streams, BbfsOk;
    var b := s.handles[h].bbf;
    AddStreamTree(s, DropHandle(s, h));
    ErasedExactlyWhenInPlace(DropHandle(s, h), b);
    hide PutBbf;
    DanglingIsNoTree(Released(s, h), s.bbfs[b].emb, s.bbfs[b].key);
  }

  lemma DanglingIsNoTree(s: State, e: int, key: int)
    requires Dangling(s, e, key)
    ensures !Streams(s)
  {
  }

  /** A release keeps the tree and all counts exactly when it leaves no such entry. */
  lemma ReleaseKeepsExactlyWhen(s: State, h: int)
    requires Inv(s, -1, -1) && Last(s, h) && s.handles[h].Stream?
    ensures Releasable(s, s.handles[h].bbf)
    ensures Inv(Released(s, h), -1, -1) <==> !LeavesEntry(s, h)
    ensures var b := s.handles[h].bbf;
            && (LeavesEntry(s, h) ==> Dangling(Released(s, h), s.bbfs[b].emb, s.bbfs[b].key))
            && (|Users(s, b)| == 1 ==> b !in Released(s, h).bbfs)
  {
    hide Tree, Held, FeedsCounts, EmbCounts, BbfCounts, Users, PutBbf, PutEmb;
    StreamReleasable(s, h);
    UsersCounted(s, h);
    var b := s.handles[h].bbf;
    if InPlace(s, b) || |Users(s, b)| > 1 {
      ReleaseKeeps(s, h);
      StaysGone(s, h);
    } else if s.embs[s.bbfs[b].emb].count == 1 {
      var t := HeaderParsed(s, b, s.bbfs[b].key);
      HeaderKeeps(s, b, s.bbfs[b].key);
      ReleasedWithEmb(s, h);
      ReleaseKeeps(t, h);
      StaysGone(s, h);
    } else {
      EntryStays(s, h);
      StaysGone(s, h);
    }
  }

  /** And the sums hold after it in exactly the same cases. */
  lemma ReleaseConservesExactlyWhen(s: State, h: int)
    requires Inv(s, -1, -1) && Last(s, h) && s.handles[h].Stream?
    ensures Releasable(s, s.handles[h].bbf)
    ensures Conserved(Released(s, h)) <==> !LeavesEntry(s, h)
  {
    hide Inv, LeavesEntry, Released;
    ReleaseKeepsExactlyWhen(s, h);
    if Inv(Released(s, h), -1, -1) { Conservation(Released(s, h)); }
  }

  lemma StaysGone(s: State, h: int)
    requires h in s.handles && s.handles[h].Stream? && Releasable(s, s.handles[h].bbf)
    ensures var b := s.handles[h].bbf; s.bbfs[b].count == 1 ==> b !in Released(s, h).bbfs
  {
  }

  lemma NextIsNew(s: State)
    requires Tree(s) && HandlesOk(s)
    ensures s.next !in s.embs && s.next !in s.handles
  {
    hide Owners, Streams, Embedded;
  }

  // ---------------------------------------------------------------------------------------------
  // Out of order
  // ---------------------------------------------------------------------------------------------

  /** With the last reference to a stream its feeds object goes exactly when nothing is in it. */
  lemma FreedExactlyWhenEmpty(s: State, b: int)
    requires FeedsCounts(s) && b in s.bbfs && s.bbfs[b].feeds in s.feeds
    ensures var x := s.feeds[s.bbfs[b].feeds];
            s.bbfs[b].feeds !in PutFeeds(s.feeds, s.bbfs[b].feeds) <==> x.outputs == {} && x.embedded == map[]
  {
    var x := s.feeds[s.bbfs[b].feeds];
    assert |x.embedded.Keys| == |x.embedded|;
    assert x.embedded == map[] <==> x.embedded.Keys == {};
  }

  /**
   * And exactly then the counts stay right: a feeds object that something is still in has lost the
   * reference of its owner, and is freed with the first thing that leaves it.
   */
  lemma CountsSurviveExactlyWhenEmpty(s: State, b: int)
    requires FeedsCounts(s) && b in s.bbfs && s.bbfs[b].feeds in s.feeds
    ensures var x := s.feeds[s.bbfs[b].feeds];
            FeedsCounts(s.(feeds := PutFeeds(s.feeds, s.bbfs[b].feeds))) <==> x.outputs == {} && x.embedded == map[]
  {
    FreedExactlyWhenEmpty(s, b);
  }

  /**
   * Why the order matters: given back before the embedded stream inside it, a stream leaves a feeds
   * object with one reference. Giving back the embedded stream then frees that object, whose table
   * the stream is still to be taken out of.
   */
  lemma OutOfOrderFreesTooEarly(s: State, b: int, p: int, e: int)
    requires FeedsCounts(s) && b in s.bbfs && s.bbfs[b].feeds in s.feeds
    requires s.feeds[s.bbfs[b].feeds].outputs == {} && s.feeds[s.bbfs[b].feeds].embedded == map[p := e]
    ensures var f := s.bbfs[b].feeds;
            var left := PutFeeds(s.feeds, f);
            f in left && p in left[f].embedded && left[f].count > 0 && f !in PutFeeds(left, f)
  {
    MapAdd(map[], p, e);
    var none: map<int, int> := map[];
    assert none[p := e] == map[p := e];
  }

  lemma StartedKeeps()
    ensures Inv(Started(), -1, -1)
  {
  }

  lemma AllocatedKeeps(s: State, f: int, pid: int, isi: int, user: int, support: int)
    requires Inv(s, -1, -1) && f in s.feeds && support < s.next && Supports(s, support, user, f)
    ensures StreamThere(s, f, pid, isi) && Inv(Allocated(s, f, pid, isi, user, support), -1, -1)
  {
    hide Inv, Supports, EmbThere, BbfThere, GetEmb, GetBbf;
    AllocateKeeps(s, f, pid, isi, user, support);
  }

  /** A demux with one stream. */
  function OneStream(pid: int, isi: int, user: int): State {
    State(map[FE_FEEDS := Feeds(1, -1, {}, map[]), DEFAULT_FEEDS := Feeds(2, -1, {}, map[pid := 2]), 4 := Feeds(1, 3, {}, map[])],
          map[2 := Emb(1, DEFAULT_FEEDS, pid, map[isi := 3])], map[3 := Bbf(1, 2, isi, 4, isi)],
          map[], map[5 := Stream(user, -1, 3)], 6)
  }

  lemma FirstEmb(pid: int)
    ensures EmbThere(Started(), DEFAULT_FEEDS, pid) && EmbOf(Started(), DEFAULT_FEEDS, pid) == 2
    ensures GetEmb(Started(), DEFAULT_FEEDS, pid)
            == State(map[FE_FEEDS := Feeds(1, -1, {}, map[]), DEFAULT_FEEDS := Feeds(2, -1, {}, map[pid := 2])],
                     map[2 := Emb(1, DEFAULT_FEEDS, pid, map[])], map[], map[], map[], 3)
  {
    var s := GetEmb(Started(), DEFAULT_FEEDS, pid);
    var none: map<int, int> := map[];
    assert none[pid := 2] == map[pid := 2];
    assert s.feeds == map[FE_FEEDS := Feeds(1, -1, {}, map[]), DEFAULT_FEEDS := Feeds(2, -1, {}, map[pid := 2])];
  }

  lemma OneStreamArises(pid: int, isi: int, user: int)
    ensures StreamThere(Started(), DEFAULT_FEEDS, pid, isi)
    ensures Allocated(Started(), DEFAULT_FEEDS, pid, isi, user, -1) == OneStream(pid, isi, user)
    ensures Inv(OneStream(pid, isi, user), -1, -1)
  {
    hide Inv;
    StartedKeeps();
    AllocatedKeeps(Started(), DEFAULT_FEEDS, pid, isi, user, -1);
    FirstEmb(pid);
    var s := Allocated(Started(), DEFAULT_FEEDS, pid, isi, user, -1);
    var t := OneStream(pid, isi, user);
    assert s.feeds == t.feeds;
    assert s.embs == t.embs;
  }

  /** It does come to that: a stream, and a second one that its user acquires inside it. */
  lemma StreamInStreamArises(pid: int, isi: int, inner: int, innerIsi: int, user: int)
    ensures var s := OneStream(pid, isi, user);
            && StreamThere(s, 4, inner, innerIsi)
            && var t := Allocated(s, 4, inner, innerIsi, user, 5);
               && Inv(t, -1, -1) && 3 in t.bbfs && t.bbfs[3].feeds == 4 && 4 in t.feeds
               && t.feeds[4].outputs == {} && t.feeds[4].embedded == map[inner := 6]
               && 5 in t.handles && t.handles[5] == Stream(user, -1, 3) && !Last(t, 5)
  {
    OneStreamArises(pid, isi, user);
    var s := OneStream(pid, isi, user);
    AllocatedKeeps(s, 4, inner, innerIsi, user, 5);
    hide Inv;
    var t := Allocated(s, 4, inner, innerIsi, user, 5);
    assert t.feeds[4] == Feeds(2, 3, {}, map[inner := 6]);
    assert 9 in t.handles && t.handles[9].user == user;
  }

  // ---------------------------------------------------------------------------------------------
  // Frames change the key
  // ---------------------------------------------------------------------------------------------

  /**
   * A stream for whatever PLP there is, one frame of it, and a release: the embedded stream is given
   * back with an entry in its table.
   */
  method UnspecifiedPlp(pid: int, isi: nat, ghost user: int) returns (demux: Demux, b: int, warned: bool)
    requires isi < UNSPECIFIED_ISI
    ensures warned && demux.Valid() && b !in demux.bbfs
  {
    demux := new Demux();
    ghost var h;
    b, h := demux.AllocateStream(false, -1, pid, -1, user, -1);
    demux.ParseBbheader(b, isi);
    warned := demux.ReleaseBbframesStream(b, h);
  }

  /** With a stream of another PLP beside it the entry outlives what it points to. */
  method UnspecifiedPlpBesideAnother(pid: int, plp: nat, isi: nat, ghost user: int) returns (demux: Demux, e: int)
    requires plp < UNSPECIFIED_ISI && isi < UNSPECIFIED_ISI
    ensures Dangling(demux.Now(), e, UNSPECIFIED_ISI) && !demux.Valid()
  {
    hide Inv, Users, Dangling, Allocated, StreamThere, Released;
    demux := new Demux();
    ghost var h0, h;
    var b0, b;
    OneStreamArises(pid, plp, user);
    b0, h0 := demux.AllocateStream(false, -1, pid, plp, user, -1);
    TwoStreams(pid, plp, user);
    b, h := demux.AllocateStream(false, -1, pid, -1, user, -1);
    demux.ParseBbheader(b, isi);
    UsersOf(demux.Now(), b, h);
    e := demux.bbfs[b].emb;
    var warned := demux.ReleaseBbframesStream(b, h);
  }

  lemma TwoStreams(pid: int, plp: int, user: int)
    requires plp != UNSPECIFIED_ISI
    ensures var s := OneStream(pid, plp, user);
            && StreamThere(s, DEFAULT_FEEDS, pid, UNSPECIFIED_ISI)
            && var t := Allocated(s, DEFAULT_FEEDS, pid, UNSPECIFIED_ISI, user, -1);
               && t.handles == map[5 := Stream(user, -1, 3), 8 := Stream(user, -1, 6)]
               && 6 in t.bbfs && t.bbfs[6].emb == 2 && 2 in t.embs && t.embs[2].count == 2
  {
  }

  lemma UsersOf(s: State, b: int, h: int)
    requires h in s.handles && s.handles[h].Stream? && s.handles[h].bbf == b
    requires forall k :: k in s.handles && k != h ==> s.handles[k].Stream? && s.handles[k].bbf != b
    ensures |Users(s, b)| == 1
  {
    OnlyHolder(Users(s, b), h);
  }
}
