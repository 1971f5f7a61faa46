/** Path walking (fs/vfs/vfs.c): the plain walk, and the one that follows symbolic links
    with a budget shared by all links of one call. */
module VfsWalk {
  import opened MachineInts

  type Node = nat

  datatype Kind = Directory | Symlink | Other

  /** A file system as the walkers see it: what a directory has under a name, mounts
      included, and what a link's target reads as. */
  datatype Fs = Fs(root: Option<Node>, kind: Node -> Kind, child: (Node, string) -> Option<Node>, target: Node -> string)

  const NAME_ROOM: nat := 127
  const MAX_LINKS: nat := 8
  const ELOOP: int := 40
  const ENAMETOOLONG: int := 36

  // ---- Segments -------------------------------------------------------------------------------

  /** How many characters come before the next slash or the end. */
  function SegLen(p: string): (n: nat)
    ensures n <= |p| && (n < |p| ==> p[n] == '/') && forall i | 0 <= i < n :: p[i] != '/'
  {
    if p == "" || p[0] == '/' then 0 else 1 + SegLen(p[1..])
  }

  /** The path after its first segment and the slash that ends it. */
  function After(p: string): (r: string)
    ensures p != "" ==> |r| < |p|
  {
    if SegLen(p) < |p| then p[SegLen(p) + 1..] else ""
  }

  function SkipSlashes(p: string): (r: string)
    ensures |r| <= |p|
  {
    if p != "" && p[0] == '/' then SkipSlashes(p[1..]) else p
  }

  /** Empty and parent segments are passed over. */
  predicate Passed(seg: string) {
    seg == "" || seg == ".."
  }

  function WalkOne(fs: Fs, dir: Node, name: string): Option<Node> {
    if fs.kind(dir) != Directory then None else fs.child(dir, name)
  }

  // ---- The plain walk -----------------------------------------------------------------------

  function Plain(fs: Fs, cur: Option<Node>, p: string): Option<Node>
    decreases |p|
  {
    if p == "" || cur == None then cur
    else if SegLen(p) > NAME_ROOM then None
    else
      var seg := p[..SegLen(p)];
      Plain(fs, if Passed(seg) then cur else WalkOne(fs, cur.value, seg), After(p))
  }

  function From(fs: Fs, start: Option<Node>): Option<Node> {
    if start.Some? then start else fs.root
  }

  // ---- Following links ------------------------------------------------------------------------

  /** `links` is the counter the walkers share, `err` the error they set. */
  datatype Walked = Walked(node: Option<Node>, links: nat, err: int)

  /** One segment, with at most `max` links in all. */
  function OneFollow(fs: Fs, max: nat, dir: Node, seg: string, links: nat): (w: Walked)
    requires links <= max
    ensures links <= w.links <= max
    decreases max - links, 0, 0
  {
    var node := WalkOne(fs, dir, seg);
    if node == None || fs.kind(node.value) != Symlink then Walked(node, links, 0)
    else if links >= max then Walked(None, links, ELOOP)
    else if fs.target(node.value) == "" then Walked(None, links + 1, 0)
    else
      var t := fs.target(node.value);
      PathFollow(fs, max, LinkBase(fs, dir, t), t, links + 1)
  }

  /** The loop over the segments of `p`. */
  function Follow(fs: Fs, max: nat, cur: Option<Node>, p: string, links: nat): (w: Walked)
    requires links <= max
    ensures links <= w.links <= max
    decreases max - links, 1, |p|
  {
    if p == "" || cur == None then Walked(cur, links, 0)
    else if SegLen(p) > NAME_ROOM then Walked(None, links, ENAMETOOLONG)
    else
      var seg := p[..SegLen(p)];
      if Passed(seg) then Follow(fs, max, cur, After(p), links)
      else
        var w := OneFollow(fs, max, cur.value, seg, links);
        if w.err != 0 then Walked(None, w.links, w.err) else Follow(fs, max, w.node, After(p), w.links)
  }

  function PathFollow(fs: Fs, max: nat, start: Option<Node>, p: string, links: nat): (w: Walked)
    requires links <= max
    ensures links <= w.links <= max
    decreases max - links, 2, 0
  {
    Follow(fs, max, From(fs, start), SkipSlashes(p), links)
  }

  /** Where a link's target is walked from. */
  function LinkBase(fs: Fs, dir: Node, t: string): Option<Node>
    requires t != ""
  {
    if t[0] == '/' then fs.root else Some(dir)
  }

  /** The segment leads to a link that is followed. */
  predicate Follows(fs: Fs, max: nat, dir: Node, seg: string, links: nat) {
    var node := WalkOne(fs, dir, seg);
    node.Some? && fs.kind(node.value) == Symlink && links < max && fs.target(node.value) != ""
  }

  lemma FollowedLink(fs: Fs, max: nat, dir: Node, seg: string, links: nat)
    requires Follows(fs, max, dir, seg, links)
    ensures var t := fs.target(WalkOne(fs, dir, seg).value);
            OneFollow(fs, max, dir, seg, links) == Follow(fs, max, From(fs, LinkBase(fs, dir, t)), SkipSlashes(t), links + 1)
  {
    var t := fs.target(WalkOne(fs, dir, seg).value);
    assert PathFollow(fs, max, LinkBase(fs, dir, t), t, links + 1)
        == Follow(fs, max, From(fs, LinkBase(fs, dir, t)), SkipSlashes(t), links + 1);
  }

  // ---- What following promises ------------------------------------------------------------------

  ghost predicate NotLink(fs: Fs, n: Option<Node>) {
    n.Some? ==> fs.kind(n.value) != Symlink
  }

  /** A walk that does not start at a link does not end at one. */
  lemma {:induction false} NeverEndsAtLink(fs: Fs, max: nat, cur: Option<Node>, p: string, links: nat)
    requires links <= max && NotLink(fs, fs.root) && NotLink(fs, cur)
    ensures NotLink(fs, Follow(fs, max, cur, p, links).node)
    decreases max - links, |p|
  {
    if p != "" && cur.Some? && SegLen(p) <= NAME_ROOM {
      var seg := p[..SegLen(p)];
      if Passed(seg) {
        NeverEndsAtLink(fs, max, cur, After(p), links);
      } else {
        var w := OneFollow(fs, max, cur.value, seg, links);
        if Follows(fs, max, cur.value, seg, links) {
          var t := fs.target(WalkOne(fs, cur.value, seg).value);
          FollowedLink(fs, max, cur.value, seg, links);
          NeverEndsAtLink(fs, max, From(fs, LinkBase(fs, cur.value, t)), SkipSlashes(t), links + 1);
        }
        if w.err == 0 {
          NeverEndsAtLink(fs, max, w.node, After(p), w.links);
        }
      }
    }
  }

  /** No segment of the plain walk leads to a link. */
  predicate MeetsNoLink(fs: Fs, cur: Option<Node>, p: string)
    decreases |p|
  {
    p == "" || cur == None || SegLen(p) > NAME_ROOM ||
    var seg := p[..SegLen(p)];
    if Passed(seg) then MeetsNoLink(fs, cur, After(p))
    else
      var n := WalkOne(fs, cur.value, seg);
      (n == None || fs.kind(n.value) != Symlink) && MeetsNoLink(fs, n, After(p))
  }

  /** Where no link is met, following is the plain walk and uses no budget. */
  lemma {:induction false} FollowIsPlainWithoutLinks(fs: Fs, max: nat, cur: Option<Node>, p: string, links: nat)
    requires links <= max && MeetsNoLink(fs, cur, p)
    ensures var w := Follow(fs, max, cur, p, links);
            w.node == Plain(fs, cur, p) && w.links == links && w.err in {0, ENAMETOOLONG}
    decreases |p|
  {
    if p != "" && cur.Some? && SegLen(p) <= NAME_ROOM {
      var seg := p[..SegLen(p)];
      FollowIsPlainWithoutLinks(fs, max, if Passed(seg) then cur else WalkOne(fs, cur.value, seg), After(p), links);
    }
  }

  /** A walk reports a loop only after using up its budget. */
  lemma {:induction false} LoopMeansBudgetUsed(fs: Fs, max: nat, cur: Option<Node>, p: string, links: nat)
    requires links <= max
    ensures Follow(fs, max, cur, p, links).err == ELOOP ==> Follow(fs, max, cur, p, links).links == max
    decreases max - links, |p|
  {
    if p != "" && cur.Some? && SegLen(p) <= NAME_ROOM {
      var seg := p[..SegLen(p)];
      if Passed(seg) {
        LoopMeansBudgetUsed(fs, max, cur, After(p), links);
      } else {
        var w := OneFollow(fs, max, cur.value, seg, links);
        if Follows(fs, max, cur.value, seg, links) {
          var t := fs.target(WalkOne(fs, cur.value, seg).value);
          FollowedLink(fs, max, cur.value, seg, links);
          LoopMeansBudgetUsed(fs, max, From(fs, LinkBase(fs, cur.value, t)), SkipSlashes(t), links + 1);
        }
        if w.err == 0 {
          LoopMeansBudgetUsed(fs, max, w.node, After(p), w.links);
        }
      }
    }
  }

  /** The budget only ever turns an answer into a loop error: a walk that does not report
      a loop gives the answer it would give under any larger budget. */
  lemma {:induction false} BudgetOnlyStopsLoops(fs: Fs, max: nat, more: nat, cur: Option<Node>, p: string, links: nat)
    requires links <= max <= more && Follow(fs, max, cur, p, links).err != ELOOP
    ensures Follow(fs, more, cur, p, links) == Follow(fs, max, cur, p, links)
    decreases max - links, |p|
  {
    if p != "" && cur.Some? && SegLen(p) <= NAME_ROOM {
      var seg := p[..SegLen(p)];
      if Passed(seg) {
        BudgetOnlyStopsLoops(fs, max, more, cur, After(p), links);
      } else {
        var w := OneFollow(fs, max, cur.value, seg, links);
        if Follows(fs, max, cur.value, seg, links) {
          var t := fs.target(WalkOne(fs, cur.value, seg).value);
          FollowedLink(fs, max, cur.value, seg, links);
          FollowedLink(fs, more, cur.value, seg, links);
          BudgetOnlyStopsLoops(fs, max, more, From(fs, LinkBase(fs, cur.value, t)), SkipSlashes(t), links + 1);
        }
        if w.err == 0 {
          BudgetOnlyStopsLoops(fs, max, more, w.node, After(p), w.links);
        }
      }
    }
  }

  // ---- Links mean their targets --------------------------------------------------------------------

  lemma {:induction false} SegLenJoined(p: string, q: string)
    ensures SegLen(p + "/" + q) == SegLen(p)
  {
    var s := p + "/" + q;
    if p != "" && p[0] != '/' {
      SegLenJoined(p[1..], q);
      assert s[1..] == p[1..] + "/" + q;
    }
  }

  lemma FirstSegmentJoined(p: string, q: string)
    ensures (p + "/" + q)[..SegLen(p + "/" + q)] == p[..SegLen(p)]
    ensures After(p + "/" + q) == if SegLen(p) < |p| then After(p) + "/" + q else q
  {
    SegLenJoined(p, q);
    JoinSlices(p, q, SegLen(p));
    AfterIs(p + "/" + q, SegLen(p));
    if SegLen(p) < |p| {
      AfterIs(p, SegLen(p));
    }
  }

  lemma AfterIs(s: string, n: nat)
    requires n == SegLen(s) < |s|
    ensures After(s) == s[n + 1..]
  {
  }

  lemma JoinSlices(p: string, q: string, n: nat)
    requires n <= |p|
    ensures var s := p + "/" + q;
            s[..n] == p[..n] && s[n + 1..] == if n < |p| then p[n + 1..] + "/" + q else q
  {
  }

  /** What a walk does after another one that ended in `w`. */
  function Onward(fs: Fs, max: nat, w: Walked, q: string): Walked
    requires w.links <= max
  {
    if w.err != 0 then Walked(None, w.links, w.err) else Follow(fs, max, w.node, q, w.links)
  }

  /** Walking a joined path is walking its parts one after the other. */
  lemma {:induction false} FollowJoined(fs: Fs, max: nat, cur: Option<Node>, p: string, q: string, links: nat)
    requires links <= max
    ensures Follow(fs, max, cur, p + "/" + q, links) == Onward(fs, max, Follow(fs, max, cur, p, links), q)
    decreases |p|
  {
    FirstSegmentJoined(p, q);
    SegLenJoined(p, q);
    if cur.Some? && SegLen(p) <= NAME_ROOM {
      var seg := p[..SegLen(p)];
      if Passed(seg) {
        if SegLen(p) < |p| {
          FollowJoined(fs, max, cur, After(p), q, links);
        }
      } else {
        var w := OneFollow(fs, max, cur.value, seg, links);
        if w.err == 0 && SegLen(p) < |p| {
          FollowJoined(fs, max, w.node, After(p), q, w.links);
        }
      }
    }
  }

  /** A path through a link is the path with the link's target in its place, taken from
      the root or from the link's own directory, at the price of one link. */
  lemma LinkIsItsTarget(fs: Fs, max: nat, dir: Node, seg: string, rest: string, links: nat)
    requires links < max && !Passed(seg) && |seg| <= NAME_ROOM && SegLen(seg) == |seg| && Follows(fs, max, dir, seg, links)
    ensures var t := fs.target(WalkOne(fs, dir, seg).value);
            (Follow(fs, max, Some(dir), seg + "/" + rest, links)
             == Follow(fs, max, From(fs, LinkBase(fs, dir, t)), SkipSlashes(t) + "/" + rest, links + 1))
  {
    var t := fs.target(WalkOne(fs, dir, seg).value);
    FollowedLink(fs, max, dir, seg, links);
    FollowJoined(fs, max, From(fs, LinkBase(fs, dir, t)), SkipSlashes(t), rest, links + 1);
    FirstSegmentJoined(seg, rest);
    assert seg[..|seg|] == seg;
    SegLenJoined(seg, rest);
  }

  // ---- The walkers --------------------------------------------------------------------------------

  /** A stretch without slashes that a slash or the end stops is the first segment. */
  lemma SegmentIs(p: string, at: nat, next: nat)
    requires at <= next <= |p| && (forall i | at <= i < next :: p[i] != '/') && (next < |p| ==> p[next] == '/')
    ensures SegLen(p[at..]) == next - at && p[at..][..next - at] == p[at..next]
    ensures After(p[at..]) == if next < |p| then p[next + 1..] else ""
  {
    var q := p[at..];
    var n := SegLen(q);
    assert n < |q| ==> q[n] == p[at + n];
    assert next < |p| ==> q[next - at] == '/';
    if next < |p| {
      assert q[next - at + 1..] == p[next + 1..];
    }
  }

  lemma SegmentGoesOn(p: string, at: nat, next: nat)
    requires at <= next <= |p| && forall i | at <= i < next :: p[i] != '/'
    ensures SegLen(p[at..]) >= next - at
  {
    var q := p[at..];
    var n := SegLen(q);
    assert n < |q| ==> q[n] == p[at + n];
  }

  /** The inner loop that gathers one segment; it stops early on one that is too long. */
  method TakeSegment(p: string, at: nat) returns (seg: string, next: nat, tooLong: bool)
    requires at < |p|
    ensures tooLong <==> SegLen(p[at..]) > NAME_ROOM
    ensures !tooLong ==> at < next <= |p| && seg == p[at..][..SegLen(p[at..])] && p[next..] == After(p[at..])
  {
    next := at;
    seg := "";
    while next < |p| && p[next] != '/' && |seg| < NAME_ROOM
      invariant at <= next <= |p| && next - at == |seg| <= NAME_ROOM && seg == p[at..next]
      invariant forall i | at <= i < next :: p[i] != '/'
    {
      seg := seg + [p[next]];
      next := next + 1;
    }
    tooLong := next < |p| && p[next] != '/';
    if tooLong {
      SegmentGoesOn(p, at, next + 1);
      return;
    }
    SegmentIs(p, at, next);
    if next < |p| {
      next := next + 1;
    }
  }

  method SkipLeading(p: string) returns (at: nat)
    ensures at <= |p| && p[at..] == SkipSlashes(p)
  {
    at := 0;
    while at < |p| && p[at] == '/'
      invariant at <= |p| && SkipSlashes(p[at..]) == SkipSlashes(p)
    {
      assert p[at..][1..] == p[at + 1..];
      at := at + 1;
    }
  }

  /** `vfs_walk_path`. */
  method WalkPath(fs: Fs, start: Option<Node>, path: string) returns (cur: Option<Node>)
    ensures cur == Plain(fs, From(fs, start), SkipSlashes(path))
  {
    cur := From(fs, start);
    var at := SkipLeading(path);
    while at < |path| && cur.Some?
      invariant at <= |path| && Plain(fs, cur, path[at..]) == Plain(fs, From(fs, start), SkipSlashes(path))
    {
      var seg, next, tooLong := TakeSegment(path, at);
      if tooLong {
        return None;
      }
      at := next;
      if Passed(seg) {
        continue;
      }
      cur := WalkOne(fs, cur.value, seg);
    }
  }

  /** `_walk_one_follow`. */
  method WalkOneFollow(fs: Fs, dir: Node, seg: string, links: nat) returns (w: Walked)
    requires links <= MAX_LINKS
    ensures w == OneFollow(fs, MAX_LINKS, dir, seg, links)
    decreases MAX_LINKS - links, 0
  {
    var node := WalkOne(fs, dir, seg);
    if node == None {
      return Walked(None, links, 0);
    }
    if fs.kind(node.value) == Symlink {
      if links >= MAX_LINKS {
        return Walked(None, links, ELOOP);
      }
      var t := fs.target(node.value);
      if t == "" {
        return Walked(None, links + 1, 0);
      }
      w := WalkPathFollow(fs, if t[0] == '/' then fs.root else Some(dir), t, links + 1);
      return;
    }
    return Walked(node, links, 0);
  }

  /** `_walk_path_follow`. */
  method WalkPathFollow(fs: Fs, start: Option<Node>, path: string, links: nat) returns (w: Walked)
    requires links <= MAX_LINKS
    ensures w == PathFollow(fs, MAX_LINKS, start, path, links)
    decreases MAX_LINKS - links, 1
  {
    var cur, used, err := From(fs, start), links, 0;
    var at := SkipLeading(path);
    while at < |path| && cur.Some? && err == 0
      invariant at <= |path| && links <= used <= MAX_LINKS
      invariant err == 0 ==> Follow(fs, MAX_LINKS, cur, path[at..], used) == PathFollow(fs, MAX_LINKS, start, path, links)
      invariant err != 0 ==> Walked(None, used, err) == PathFollow(fs, MAX_LINKS, start, path, links)
    {
      var seg, next, tooLong := TakeSegment(path, at);
      if tooLong {
        return Walked(None, used, ENAMETOOLONG);
      }
      at := next;
      if Passed(seg) {
        continue;
      }
      var one := WalkOneFollow(fs, cur.value, seg, used);
      cur, used, err := one.node, one.links, one.err;
    }
    if err != 0 {
      return Walked(None, used, err);
    }
    return Walked(cur, used, 0);
  }

  /** `vfs_walk_path_follow`: at most 8 links, never ending at one. */
  method Resolve(fs: Fs, start: Option<Node>, path: string) returns (node: Option<Node>, err: int)
    ensures var w := PathFollow(fs, MAX_LINKS, start, path, 0); node == w.node && err == w.err && w.links <= MAX_LINKS
    ensures NotLink(fs, fs.root) && NotLink(fs, start) ==> NotLink(fs, node)
    ensures MeetsNoLink(fs, From(fs, start), SkipSlashes(path)) ==> node == Plain(fs, From(fs, start), SkipSlashes(path))
  {
    var w := WalkPathFollow(fs, start, path, 0);
    node, err := w.node, w.err;
    if NotLink(fs, fs.root) && NotLink(fs, start) {
      NeverEndsAtLink(fs, MAX_LINKS, From(fs, start), SkipSlashes(path), 0);
    }
    if MeetsNoLink(fs, From(fs, start), SkipSlashes(path)) {
      FollowIsPlainWithoutLinks(fs, MAX_LINKS, From(fs, start), SkipSlashes(path), 0);
    }
  }
}
