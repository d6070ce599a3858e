/** Reusing file digests by metadata while other processes keep writing. Contents stand for their digests. */
module HashCaching {
  import opened Wrappers

  type Byte = x: int | 0 <= x < 256
  type Contents = seq<Byte>
  type Path = string
  datatype InodeId = InodeId(dev: nat, ino: nat)

  /** Metadata the cache looks at; writes stamp `ctime`, while `mtime` can be set to anything. */
  datatype Inode = Inode(contents: Contents, mtime: int, ctime: int, regular: bool)

  const RECENT_WRITE_GUARD_NS: int := 2_000_000_000
  const BLOCK: nat := 1024 * 1024

  datatype Stat = Stat(id: InodeId, size: nat, mtime: int, ctime: int)
  datatype Key = Key(path: Path, stat: Stat)

  datatype HashError = NotFound | ChangedBefore | ChangedDuring

  function StatOf(id: InodeId, node: Inode): Stat { Stat(id, |node.contents|, node.mtime, node.ctime) }

  predicate AllowsReuse(mtime: int, ctime: int, now: int) {
    && mtime > 0 && ctime > 0
    && now - (if mtime < ctime then ctime else mtime) >= RECENT_WRITE_GUARD_NS
  }

  /** Whatever carries a change time a guard older than `since` has not changed since then. */
  predicate OldOnesKept(before: map<InodeId, Inode>, since: int, after: map<InodeId, Inode>) {
    forall id :: id in after && after[id].ctime + RECENT_WRITE_GUARD_NS <= since ==> id in before && before[id] == after[id]
  }

  /** If the inode of `stat` still has that old change time, its contents are `c`. */
  predicate Pinned(inodes: map<InodeId, Inode>, now: int, stat: Stat, c: Contents) {
    && stat.ctime + RECENT_WRITE_GUARD_NS <= now
    && (stat.id in inodes && inodes[stat.id].ctime == stat.ctime ==> inodes[stat.id].contents == c)
  }

  /** Every cached digest speaks for its key for as long as the key can still be observed. */
  ghost predicate Sound(digests: map<Key, Contents>, inodes: map<InodeId, Inode>, now: int) {
    forall key :: key in digests ==> Pinned(inodes, now, key.stat, digests[key])
  }

  /** No other process can write behind an old change time: its own stamp would be newer. */
  lemma PinnedStays(before: map<InodeId, Inode>, since: int, after: map<InodeId, Inode>, now: int, stat: Stat, c: Contents)
    requires Pinned(before, since, stat, c) && OldOnesKept(before, since, after) && since <= now
    ensures Pinned(after, now, stat, c)
  {
  }

  /** A file that still has the old change time was already like this. */
  lemma OldOneStays(before: map<InodeId, Inode>, since: int, after: map<InodeId, Inode>, stat: Stat, c: Contents)
    requires Pinned(before, since, stat, c) && OldOnesKept(before, since, after)
    requires stat.id in after && after[stat.id].ctime == stat.ctime
    ensures stat.id in before && before[stat.id] == after[stat.id]
  {
  }

  lemma SoundStays(digests: map<Key, Contents>, before: map<InodeId, Inode>, since: int, after: map<InodeId, Inode>, now: int)
    requires Sound(digests, before, since) && OldOnesKept(before, since, after) && since <= now
    ensures Sound(digests, after, now)
  {
    forall key | key in digests ensures Pinned(after, now, key.stat, digests[key]) {
      PinnedStays(before, since, after, now, key.stat, digests[key]);
    }
  }

  class FileSystem {
    var now: int
    var inodes: map<InodeId, Inode>
    var paths: map<Path, InodeId>
    var links: map<Path, Path>
    var held: set<InodeId>
    /** Operations that other processes still perform: any finite number. */
    var activity: nat
    /** The contents behind every path-based stat, in order. */
    ghost var observed: seq<Contents>

    predicate Valid()
      reads this
    {
      && (forall p :: p in paths ==> paths[p] in inodes) && held <= inodes.Keys
    }

    predicate Same(now0: int, inodes0: map<InodeId, Inode>, paths0: map<Path, InodeId>, links0: map<Path, Path>)
      reads this
    {
      now == now0 && inodes == inodes0 && paths == paths0 && links == links0
    }

    /** Change times lag behind the clock by less than the guard. */
    method Stamp() returns (ctime: int)
      ensures now - RECENT_WRITE_GUARD_NS < ctime <= now
    {
      var lag: int := *;
      ctime := if 0 <= lag < RECENT_WRITE_GUARD_NS then now - lag else now;
    }

    /** One operation of another process. */
    method Act()
      requires Valid() && activity > 0
      modifies this`now, this`inodes, this`paths, this`links, this`activity
      ensures Valid() && now >= old(now) && activity < old(activity) && OldOnesKept(old(inodes), old(now), inodes)
    {
      activity := activity - 1;
      var passed: int := *;
      if passed > 0 { now := now + passed; }
      var choice: int := *;
      var id: InodeId := *;
      var from: Path := *;
      var to: Path := *;
      var node: Inode := *;
      var stamp := Stamp();
      if choice == 0 && id in inodes {
        // a write, truncation, chmod or utime on an existing file
        inodes := inodes[id := node.(ctime := stamp)];
      } else if choice == 1 && id !in inodes {
        // a new file, possibly under a reused inode number, and possibly over an existing path
        inodes := inodes[id := node.(ctime := stamp)];
        paths := paths[to := id];
      } else if choice == 2 && from in paths {
        // a rename
        var moved := paths[from];
        paths := map p | p in paths && p != from :: paths[p];
        paths := paths[to := moved];
      } else if choice == 3 {
        paths := map p | p in paths && p != from :: paths[p];
      } else if choice == 4 && id !in paths.Values && id !in held {
        inodes := map i | i in inodes && i != id :: inodes[i];
      } else {
        links := links[from := to];
      }
    }

    /** Whatever other processes do between two system calls. */
    method Others()
      requires Valid()
      modifies this`now, this`inodes, this`paths, this`links, this`activity
      ensures Valid() && now >= old(now) && activity <= old(activity) && OldOnesKept(old(inodes), old(now), inodes)
      ensures activity == old(activity) ==>
        now == old(now) && inodes == old(inodes) && paths == old(paths) && links == old(links)
    {
      var more: bool := *;
      while more && activity > 0
        invariant Valid() && now >= old(now) && activity <= old(activity) && OldOnesKept(old(inodes), old(now), inodes)
        invariant activity == old(activity) ==>
          now == old(now) && inodes == old(inodes) && paths == old(paths) && links == old(links)
        decreases activity
      {
        Act();
        more := *;
      }
    }

    /** `Path.stat`, with the contents recorded for the proof. */
    method StatPath(p: Path) returns (r: Outcome<(Stat, bool), HashError>)
      requires Valid()
      modifies this`observed
      ensures p !in paths ==> r == Raised(NotFound) && observed == old(observed)
      ensures p in paths ==>
        && r == Returned((StatOf(paths[p], inodes[paths[p]]), inodes[paths[p]].regular))
        && observed == old(observed) + [inodes[paths[p]].contents]
    {
      if p !in paths { return Raised(NotFound); }
      observed := observed + [inodes[paths[p]].contents];
      r := Returned((StatOf(paths[p], inodes[paths[p]]), inodes[paths[p]].regular));
    }

    /** Opening holds the inode until it is closed. */
    method Open(p: Path) returns (r: Outcome<InodeId, HashError>)
      requires Valid()
      modifies this`held
      ensures Valid()
      ensures r == if p in paths then Returned(paths[p]) else Raised(NotFound)
      ensures r.Returned? ==> r.value in inodes && held == old(held) + {r.value}
      ensures r.Raised? ==> held == old(held)
    {
      if p !in paths { return Raised(NotFound); }
      held := held + {paths[p]};
      r := Returned(paths[p]);
    }

    /** One read of at most a block. */
    method Read(id: InodeId, offset: nat) returns (block: Contents)
      requires Valid() && id in inodes
      ensures block == BlockAt(inodes[id].contents, offset)
    {
      var all := inodes[id].contents;
      block := if offset >= |all| then [] else all[offset..if offset + BLOCK <= |all| then offset + BLOCK else |all|];
    }
  }

  /** What a read of one block returns. */
  function BlockAt(all: Contents, offset: nat): Contents {
    if offset >= |all| then [] else all[offset..if offset + BLOCK <= |all| then offset + BLOCK else |all|]
  }

  /** A block extends what was read of the same contents; an empty one ends it. */
  lemma BlockExtends(all: Contents, data: Contents)
    ensures |data| >= |all| ==> BlockAt(all, |data|) == []
    ensures |data| <= |all| && data == all[..|data|] ==>
      var more := data + BlockAt(all, |data|);
      |more| <= |all| && more == all[..|more|] && (BlockAt(all, |data|) == [] ==> data == all)
  {
    if |data| <= |all| && data == all[..|data|] {
      var more := data + BlockAt(all, |data|);
      assert more == all[..|more|];
    }
  }

  datatype Looked = Irregular | Hit(digest: Contents) | Miss(stat: Stat, reusable: bool)

  datatype Hashed = Hashed(digest: Contents, fromCache: bool)

  /** Both times are real ones and lie two seconds or more in the past. */
  predicate Settled(stat: Stat, now: int) {
    stat.mtime >= 1 && stat.ctime >= 1 && stat.mtime + 2_000_000_000 <= now && stat.ctime + 2_000_000_000 <= now
  }

  /** Two sightings are taken for the same file version exactly when inode, size and both times are the same. */
  lemma IdentityOf(a: InodeId, x: Inode, b: InodeId, y: Inode)
    ensures StatOf(a, x) == StatOf(b, y) <==>
      a.dev == b.dev && a.ino == b.ino && |x.contents| == |y.contents| && x.mtime == y.mtime && x.ctime == y.ctime
  {
  }

  /** What a lookup finds while nothing else happens. */
  function Seen(digests: map<Key, Contents>, now: int, inodes: map<InodeId, Inode>, paths: map<Path, InodeId>, target: Path)
    : Outcome<Looked, HashError>
  {
    if target !in paths || paths[target] !in inodes then Raised(NotFound)
    else
      var node := inodes[paths[target]];
      var stat := StatOf(paths[target], node);
      if !node.regular then Returned(Irregular)
      else if Settled(stat, now) && Key(target, stat) in digests then Returned(Hit(digests[Key(target, stat)]))
      else Returned(Miss(stat, Settled(stat, now)))
  }

  class HashCache {
    const fs: FileSystem
    const pid: nat
    var digests: map<Key, Contents>
    var hits: nat
    var bytesRead: nat
    var filesHashed: nat

    constructor (fs: FileSystem, pid: nat)
      ensures this.fs == fs && this.pid == pid && digests == map[] && hits == bytesRead == filesHashed == 0
    {
      this.fs, this.pid := fs, pid;
      digests, hits, bytesRead, filesHashed := map[], 0, 0, 0;
    }

    /** Other processes act; cached and pinned contents stay what they are. */
    method Interlude(ghost stat: Stat, ghost pinned: Option<Contents>)
      requires fs.Valid() && Sound(digests, fs.inodes, fs.now)
      requires pinned.Some? ==> Pinned(fs.inodes, fs.now, stat, pinned.value)
      modifies fs`now, fs`inodes, fs`paths, fs`links, fs`activity
      ensures fs.Valid() && Sound(digests, fs.inodes, fs.now) && old(fs.now) <= fs.now
      ensures fs.activity <= old(fs.activity) && OldOnesKept(old(fs.inodes), old(fs.now), fs.inodes)
      ensures fs.activity == old(fs.activity) ==>
        fs.now == old(fs.now) && fs.inodes == old(fs.inodes) && fs.paths == old(fs.paths) && fs.links == old(fs.links)
      ensures pinned.Some? ==> Pinned(fs.inodes, fs.now, stat, pinned.value)
    {
      ghost var before, since := fs.inodes, fs.now;
      fs.Others();
      SoundStays(digests, before, since, fs.inodes, fs.now);
      if pinned.Some? { PinnedStays(before, since, fs.inodes, fs.now, stat, pinned.value); }
    }

    /** Streams an open file in blocks, while it may be written to. What was read is the pinned contents, unless the
        change time has moved. */
    method StreamSha256(id: InodeId, ghost stat: Stat, ghost pinned: Option<Contents>) returns (data: Contents)
      requires fs.Valid() && id in fs.held && Sound(digests, fs.inodes, fs.now)
      requires pinned.Some? ==> stat.id == id && Pinned(fs.inodes, fs.now, stat, pinned.value)
      modifies fs`now, fs`inodes, fs`paths, fs`links, fs`activity, this`bytesRead
      ensures fs.Valid() && Sound(digests, fs.inodes, fs.now) && old(fs.now) <= fs.now
      ensures pinned.Some? ==> Pinned(fs.inodes, fs.now, stat, pinned.value)
      ensures pinned.Some? && fs.inodes[id].ctime == stat.ctime ==> data == pinned.value
      ensures bytesRead == old(bytesRead) + |data| && fs.activity <= old(fs.activity)
      ensures fs.activity == old(fs.activity) ==> fs.Same(old(fs.now), old(fs.inodes), old(fs.paths), old(fs.links))
      ensures fs.activity == old(fs.activity) && id in old(fs.inodes) ==> data == old(fs.inodes)[id].contents
    {
      hide OldOnesKept, Sound, BlockAt;
      data := [];
      var more := true;
      while more
        invariant fs.Valid() && Sound(digests, fs.inodes, fs.now) && old(fs.now) <= fs.now && bytesRead == old(bytesRead) + |data|
        invariant pinned.Some? ==> Pinned(fs.inodes, fs.now, stat, pinned.value)
        invariant pinned.Some? && fs.inodes[id].ctime == stat.ctime ==> |data| <= |pinned.value| && data == pinned.value[..|data|]
        invariant !more && pinned.Some? && fs.inodes[id].ctime == stat.ctime ==> data == pinned.value
        invariant fs.activity <= old(fs.activity)
        invariant fs.activity == old(fs.activity) ==>
          && fs.Same(old(fs.now), old(fs.inodes), old(fs.paths), old(fs.links))
          && |data| <= |fs.inodes[id].contents| && data == fs.inodes[id].contents[..|data|]
          && (!more ==> data == fs.inodes[id].contents)
        decreases fs.activity, more, |fs.inodes[id].contents| - |data|
      {
        Interlude(stat, pinned);
        var block := fs.Read(id, |data|);
        BlockExtends(fs.inodes[id].contents, data);
        data := data + block;
        bytesRead := bytesRead + |block|;
        more := block != [];
      }
    }

    /** Hashes the opened target between two identical sightings of its metadata. */
    method HashOnce(target: Path, before: Stat, ghost pinned: Option<Contents>) returns (r: Outcome<Contents, HashError>)
      requires fs.Valid() && Sound(digests, fs.inodes, fs.now) && fs.held == {}
      requires pinned.Some? ==> Pinned(fs.inodes, fs.now, before, pinned.value)
      modifies fs, this`bytesRead
      ensures fs.Valid() && Sound(digests, fs.inodes, fs.now) && fs.held == {} && old(fs.observed) <= fs.observed
      ensures pinned.Some? ==> Pinned(fs.inodes, fs.now, before, pinned.value)
      ensures r.Returned? ==>
        && |fs.observed| == |old(fs.observed)| + 1
        && (pinned.Some? ==> r.value == pinned.value == fs.observed[|fs.observed| - 1])
      ensures fs.activity <= old(fs.activity)
      ensures fs.activity == old(fs.activity) ==> fs.Same(old(fs.now), old(fs.inodes), old(fs.paths), old(fs.links))
      ensures fs.activity == old(fs.activity) && target in old(fs.paths)
              && StatOf(old(fs.paths)[target], old(fs.inodes)[old(fs.paths)[target]]) == before ==>
        r == Returned(old(fs.inodes)[old(fs.paths)[target]].contents)
    {
      hide OldOnesKept, Sound, Pinned;
      Interlude(before, pinned);
      var handle :- fs.Open(target);
      var digest :- HashOpened(handle, before, pinned);
      Interlude(before, pinned);
      var last :- fs.StatPath(target);
      if last.0 != before { return Raised(ChangedDuring); }
      PinnedSeen(before, pinned);
      r := Returned(digest);
    }

    lemma PinnedSeen(before: Stat, pinned: Option<Contents>)
      requires pinned.Some? ==> Pinned(fs.inodes, fs.now, before, pinned.value)
      ensures pinned.Some? && before.id in fs.inodes && fs.inodes[before.id].ctime == before.ctime ==>
        fs.inodes[before.id].contents == pinned.value
    {
    }

    /** Streams an open file whose metadata must be the same before and after; the handle is closed either way. */
    method HashOpened(handle: InodeId, before: Stat, ghost pinned: Option<Contents>) returns (r: Outcome<Contents, HashError>)
      requires fs.Valid() && handle in fs.held && Sound(digests, fs.inodes, fs.now)
      requires pinned.Some? ==> Pinned(fs.inodes, fs.now, before, pinned.value)
      modifies fs, this`bytesRead
      ensures fs.Valid() && Sound(digests, fs.inodes, fs.now) && fs.held == {} && fs.observed == old(fs.observed)
      ensures pinned.Some? ==> Pinned(fs.inodes, fs.now, before, pinned.value)
      ensures r.Returned? && pinned.Some? ==> r.value == pinned.value
      ensures fs.activity <= old(fs.activity)
      ensures fs.activity == old(fs.activity) ==> fs.Same(old(fs.now), old(fs.inodes), old(fs.paths), old(fs.links))
      ensures fs.activity == old(fs.activity) && StatOf(handle, old(fs.inodes)[handle]) == before ==>
        r == Returned(old(fs.inodes)[handle].contents)
    {
      hide OldOnesKept, Sound, Pinned;
      if StatOf(handle, fs.inodes[handle]) != before {
        fs.held := {};
        return Raised(ChangedBefore);
      }
      var digest := StreamSha256(handle, before, pinned);
      ghost var inodes, since := fs.inodes, fs.now;
      Interlude(before, pinned);
      var after := StatOf(handle, fs.inodes[handle]);
      if after == before && pinned.Some? { OldOneStays(inodes, since, fs.inodes, before, pinned.value); }
      fs.held := {};
      r := if after == before then Returned(digest) else Raised(ChangedDuring);
    }

    /** A recently written file is read again; its metadata alone prove nothing. */
    method Corroborate(target: Path, before: Stat, digest: Contents) returns (r: Outcome<(), HashError>)
      requires fs.Valid() && Sound(digests, fs.inodes, fs.now) && fs.held == {}
      modifies fs, this`bytesRead
      ensures fs.Valid() && Sound(digests, fs.inodes, fs.now) && fs.held == {} && old(fs.observed) <= fs.observed
      ensures fs.activity <= old(fs.activity)
      ensures fs.activity == old(fs.activity) ==> fs.Same(old(fs.now), old(fs.inodes), old(fs.paths), old(fs.links))
      ensures fs.activity == old(fs.activity) && target in old(fs.paths)
              && StatOf(old(fs.paths)[target], old(fs.inodes)[old(fs.paths)[target]]) == before
              && old(fs.inodes)[old(fs.paths)[target]].contents == digest ==>
        r.Returned?
    {
      hide OldOnesKept, Sound;
      Interlude(before, None);
      var handle :- fs.Open(target);
      var corroborating := StreamSha256(handle, before, None);
      var second := StatOf(handle, fs.inodes[handle]);
      fs.held := {};
      Interlude(before, None);
      if corroborating != digest || second != before { return Raised(ChangedDuring); }
      var last :- fs.StatPath(target);
      if last.0 != before { return Raised(ChangedDuring); }
      r := Returned(());
    }

    /** Stats the target and consults the cache. */
    method LookUp(target: Path) returns (r: Outcome<Looked, HashError>)
      requires fs.Valid() && Sound(digests, fs.inodes, fs.now)
      modifies fs`now, fs`inodes, fs`paths, fs`links, fs`activity, fs`observed
      ensures fs.Valid() && Sound(digests, fs.inodes, fs.now) && old(fs.observed) <= fs.observed
      ensures r.Returned? && r.value.Hit? ==>
        |fs.observed| == |old(fs.observed)| + 1 && r.value.digest == fs.observed[|fs.observed| - 1]
      ensures r.Returned? && r.value.Miss? && r.value.reusable ==> r.value.stat.ctime + RECENT_WRITE_GUARD_NS <= fs.now
      ensures fs.activity <= old(fs.activity)
      ensures fs.activity == old(fs.activity) ==>
        && fs.Same(old(fs.now), old(fs.inodes), old(fs.paths), old(fs.links))
        && r == Seen(digests, old(fs.now), old(fs.inodes), old(fs.paths), target)
    {
      hide OldOnesKept;
      ghost var none := Stat(InodeId(0, 0), 0, 0, 0);
      Interlude(none, None);
      var first :- fs.StatPath(target);
      if !first.1 { return Returned(Irregular); }
      var key := Key(target, first.0);
      assert key in digests ==> digests[key] == fs.observed[|fs.observed| - 1];
      Interlude(none, None);
      var reusable := AllowsReuse(first.0.mtime, first.0.ctime, fs.now);
      r := Returned(if reusable && key in digests then Hit(digests[key]) else Miss(first.0, reusable));
    }

    /** The digest of a file, from the cache when its metadata allow it. A hit is the digest of the contents at the moment
        of the stat; a new entry is the digest of the contents at the last stat; recent files are never cached. */
    method MaybeCachedFileSha256(pid: nat, path: Path) returns (r: Outcome<Option<Hashed>, HashError>)
      requires fs.Valid() && Sound(digests, fs.inodes, fs.now) && fs.held == {}
      modifies fs, this
      ensures fs.Valid() && Sound(digests, fs.inodes, fs.now) && fs.held == {}
      ensures pid != this.pid ==> r == Returned(None) && digests == old(digests)
      ensures old(fs.observed) <= fs.observed
      ensures r.Returned? && r.value.Some? && r.value.value.fromCache ==>
        && |fs.observed| == |old(fs.observed)| + 1 && r.value.value.digest == fs.observed[|fs.observed| - 1]
        && digests == old(digests) && hits == old(hits) + 1 && bytesRead == old(bytesRead)
      ensures digests != old(digests) ==>
        && r.Returned? && r.value.Some? && !r.value.value.fromCache
        && fs.observed != [] && r.value.value.digest == fs.observed[|fs.observed| - 1]
        && forall key :: key in digests ==>
             (key in old(digests) && digests[key] == old(digests)[key]) || digests[key] == r.value.value.digest
      ensures fs.activity == old(fs.activity) && pid == this.pid ==>
        var target := if path in old(fs.links) then old(fs.links)[path] else path;
        if target !in old(fs.paths) then r == Raised(NotFound)
        else
          var node := old(fs.inodes)[old(fs.paths)[target]];
          var key := Key(target, StatOf(old(fs.paths)[target], node));
          var reusable := AllowsReuse(node.mtime, node.ctime, old(fs.now));
          r == Returned(if !node.regular then None else Some(Hashed(node.contents, reusable && key in old(digests))))
          && digests == if node.regular && reusable then old(digests)[key := node.contents] else old(digests)
    {
      hide OldOnesKept;
      if pid != this.pid { return Returned(None); }
      var target := if path in fs.links then fs.links[path] else path;
      var looked :- LookUp(target);
      if looked.Irregular? { return Returned(None); }
      if looked.Hit? {
        hits := hits + 1;
        return Returned(Some(Hashed(looked.digest, true)));
      }
      var hashed :- HashMissed(target, looked.stat, looked.reusable);
      r := Returned(Some(Hashed(hashed, false)));
    }

    /** A file without a usable entry: hashed, then cached if its metadata are old, or else read once more. */
    method HashMissed(target: Path, before: Stat, reusable: bool) returns (r: Outcome<Contents, HashError>)
      requires fs.Valid() && Sound(digests, fs.inodes, fs.now) && fs.held == {}
      requires reusable ==> before.ctime + RECENT_WRITE_GUARD_NS <= fs.now
      modifies fs, this
      ensures fs.Valid() && Sound(digests, fs.inodes, fs.now) && fs.held == {} && old(fs.observed) <= fs.observed
      ensures hits == old(hits) && filesHashed == old(filesHashed) + if r.Returned? then 1 else 0
      ensures digests == if r.Returned? && reusable then old(digests)[Key(target, before) := r.value] else old(digests)
      ensures r.Returned? && reusable ==> fs.observed != [] && r.value == fs.observed[|fs.observed| - 1]
      ensures fs.activity <= old(fs.activity)
      ensures fs.activity == old(fs.activity) && target in old(fs.paths)
              && StatOf(old(fs.paths)[target], old(fs.inodes)[old(fs.paths)[target]]) == before ==>
        r == Returned(old(fs.inodes)[old(fs.paths)[target]].contents)
    {
      hide OldOnesKept;
      ghost var pinned := if !reusable then None
        else if before.id in fs.inodes then Some(fs.inodes[before.id].contents) else Some([]);
      var digest :- HashOnce(target, before, pinned);
      if !reusable {
        var confirmed :- Corroborate(target, before, digest);
      } else {
        digests := digests[Key(target, before) := digest];
      }
      filesHashed := filesHashed + 1;
      r := Returned(digest);
    }
  }
}
