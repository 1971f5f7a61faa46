/** Path canonicalisation (fs/vfs/vfs_file.c): the path is joined to the working
    directory, its segments are run through a stack, and the stack is written out. */
module PathCanon {
  import opened VfsWalk

  const ROOM: nat := 512
  const MAX_SEGMENTS: nat := 128

  // ---- Joining --------------------------------------------------------------------------------

  function Take(s: string, n: int): (t: string)
    ensures n >= |s| ==> t == s
    ensures |t| <= |s| && (n >= 0 ==> |t| <= n)
  {
    if n <= 0 then "" else if |s| <= n then s else s[..n]
  }

  function WithSlash(s: string): string {
    if s != "" && s[|s| - 1] != '/' then s + "/" else s
  }

  predicate Absolute(p: string) {
    p != "" && p[0] == '/'
  }

  /** What a path is relative to, cut to what the buffer holds. */
  function Before(cwd: string, path: string): (dir: string)
    ensures |dir| < ROOM
  {
    if Absolute(path) then "" else WithSlash(Take(cwd, ROOM - 2))
  }

  /** The absolute path, cut to what the buffer holds. */
  function Join(cwd: string, path: string): (abs: string)
    ensures |abs| < ROOM
  {
    Before(cwd, path) + Take(path, ROOM - 1 - |Before(cwd, path)|)
  }

  // ---- The stack machine ------------------------------------------------------------------------

  /** The segments between slashes. */
  function Split(s: string): seq<string>
    decreases |s|
  {
    var t := SkipSlashes(s);
    if t == "" then [] else SegmentNonEmpty(s); [t[..SegLen(t)]] + Split(t[SegLen(t)..])
  }

  lemma SegmentNonEmpty(s: string)
    requires SkipSlashes(s) != ""
    ensures SegLen(SkipSlashes(s)) > 0
  {
    SkippedHead(s);
  }

  lemma {:induction false} SkippedHead(s: string)
    ensures SkipSlashes(s) != "" ==> SkipSlashes(s)[0] != '/'
  {
    if s != "" && s[0] == '/' {
      SkippedHead(s[1..]);
    }
  }

  /** What one segment does to the stack of kept ones. */
  function Push(stack: seq<string>, seg: string): seq<string> {
    if seg == "." then stack
    else if seg == ".." then if stack == [] then [] else stack[..|stack| - 1]
    else stack + [seg]
  }

  /** The plain stack interpretation, without a limit. */
  function Interpret(stack: seq<string>, segs: seq<string>): seq<string>
    decreases |segs|
  {
    if segs == [] then stack else Interpret(Push(stack, segs[0]), segs[1..])
  }

  predicate Plainly(seg: string) {
    seg != "." && seg != ".."
  }

  /** The same with a stack of limited size: a segment that does not fit ends it. */
  function Bounded(stack: seq<string>, segs: seq<string>): seq<string>
    decreases |segs|
  {
    if segs == [] || (Plainly(segs[0]) && |stack| >= MAX_SEGMENTS) then stack
    else Bounded(Push(stack, segs[0]), segs[1..])
  }

  function Spell(stack: seq<string>): string {
    if stack == [] then "" else Spell(stack[..|stack| - 1]) + "/" + stack[|stack| - 1]
  }

  function Render(stack: seq<string>): string {
    if stack == [] then "/" else Spell(stack)
  }

  /** `_canon_abs` on an absolute path. */
  function Canon(cwd: string, path: string): string {
    Render(Bounded([], Split(Join(cwd, path))))
  }

  // ---- Clean paths ------------------------------------------------------------------------------

  predicate CleanSegment(seg: string) {
    seg != "" && Plainly(seg) && forall i | 0 <= i < |seg| :: seg[i] != '/'
  }

  ghost predicate Clean(stack: seq<string>) {
    |stack| <= MAX_SEGMENTS && forall i | 0 <= i < |stack| :: CleanSegment(stack[i])
  }

  ghost predicate Segments(segs: seq<string>) {
    forall i | 0 <= i < |segs| :: segs[i] != "" && forall k | 0 <= k < |segs[i]| :: segs[i][k] != '/'
  }

  lemma {:induction false} SplitGivesSegments(s: string)
    ensures Segments(Split(s))
    decreases |s|
  {
    var t := SkipSlashes(s);
    if t != "" {
      SegmentNonEmpty(s);
      SplitGivesSegments(t[SegLen(t)..]);
    }
  }

  lemma {:induction false} BoundedIsClean(stack: seq<string>, segs: seq<string>)
    requires Clean(stack) && Segments(segs)
    ensures Clean(Bounded(stack, segs))
    decreases |segs|
  {
    if segs != [] && !(Plainly(segs[0]) && |stack| >= MAX_SEGMENTS) {
      BoundedIsClean(Push(stack, segs[0]), segs[1..]);
    }
  }

  /** While nothing overflows, the limit makes no difference. */
  lemma {:induction false} BoundedIsInterpret(stack: seq<string>, segs: seq<string>)
    requires Fits(stack, segs)
    ensures Bounded(stack, segs) == Interpret(stack, segs)
    decreases |segs|
  {
    if segs != [] {
      BoundedIsInterpret(Push(stack, segs[0]), segs[1..]);
    }
  }

  ghost predicate Fits(stack: seq<string>, segs: seq<string>)
    decreases |segs|
  {
    segs == [] || (|Push(stack, segs[0])| <= MAX_SEGMENTS && Fits(Push(stack, segs[0]), segs[1..]))
  }

  // ---- Reading a spelled path back -----------------------------------------------------------------

  lemma {:induction false} SegLenOf(seg: string, rest: string)
    requires (forall i | 0 <= i < |seg| :: seg[i] != '/') && (rest == "" || rest[0] == '/')
    ensures SegLen(seg + rest) == |seg|
  {
    if seg == "" {
      assert seg + rest == rest;
    } else {
      assert (seg + rest)[1..] == seg[1..] + rest;
      SegLenOf(seg[1..], rest);
    }
  }

  lemma SplitFront(seg: string, rest: string)
    requires CleanSegment(seg) && (rest == "" || rest[0] == '/')
    ensures Split("/" + seg + rest) == [seg] + Split(rest)
  {
    var s := "/" + seg + rest;
    assert s[1..] == seg + rest;
    assert SkipSlashes(s) == SkipSlashes(seg + rest) == seg + rest;
    SegLenOf(seg, rest);
    assert (seg + rest)[..|seg|] == seg && (seg + rest)[|seg|..] == rest;
  }

  lemma {:induction false} SpellFront(stack: seq<string>)
    requires stack != []
    ensures Spell(stack) == "/" + stack[0] + Spell(stack[1..])
  {
    if |stack| > 1 {
      var n := |stack| - 1;
      SpellFront(stack[..n]);
      assert stack[..n][1..] == stack[1..][..n - 1];
      var a, b := Spell(stack[1..][..n - 1]), stack[n];
      assert stack[1..][n - 1] == b;
      assert ("/" + stack[0] + a) + "/" + b == "/" + stack[0] + (a + "/" + b);
    }
  }

  lemma SpellStarts(stack: seq<string>)
    ensures Spell(stack) == "" || Spell(stack)[0] == '/'
  {
    if stack != [] {
      SpellFront(stack);
    }
  }

  /** The segments of a spelled path are the stack it was spelled from. */
  lemma {:induction false} SplitUndoesSpell(stack: seq<string>)
    requires forall i | 0 <= i < |stack| :: CleanSegment(stack[i])
    ensures Split(Render(stack)) == stack && Split(Spell(stack)) == stack
    decreases |stack|
  {
    if stack == [] {
      assert "/"[1..] == "";
      assert SkipSlashes("/") == SkipSlashes("") == "";
    } else {
      SpellFront(stack);
      SpellStarts(stack[1..]);
      SplitUndoesSpell(stack[1..]);
      SplitFront(stack[0], Spell(stack[1..]));
    }
  }

  lemma {:induction false} CleanRunsThrough(stack: seq<string>, segs: seq<string>)
    requires (forall i | 0 <= i < |segs| :: CleanSegment(segs[i])) && |stack| + |segs| <= MAX_SEGMENTS
    ensures Bounded(stack, segs) == stack + segs
    decreases |segs|
  {
    if segs != [] {
      CleanRunsThrough(stack + [segs[0]], segs[1..]);
      assert stack + [segs[0]] + segs[1..] == stack + segs;
    } else {
      assert stack + segs == stack;
    }
  }

  // ---- Lengths ------------------------------------------------------------------------------------

  lemma {:induction false} SpellLength(stack: seq<string>, seg: string)
    ensures |Spell(stack + [seg])| == |Spell(stack)| + 1 + |seg|
    ensures stack != [] ==> |Spell(stack[..|stack| - 1])| < |Spell(stack)|
  {
    assert (stack + [seg])[..|stack|] == stack;
  }

  lemma PushLength(stack: seq<string>, seg: string)
    ensures |Spell(Push(stack, seg))| <= |Spell(stack)| + 1 + |seg|
  {
    SpellLength(stack, seg);
  }

  /** Splitting off the first segment. */
  lemma SplitStep(s: string)
    requires SkipSlashes(s) != ""
    ensures var t := SkipSlashes(s);
            var seg, rest := t[..SegLen(t)], t[SegLen(t)..];
            && Split(s) == [seg] + Split(rest) && Split(s)[1..] == Split(rest) && seg != "" && (rest == "" || rest[0] == '/')
            && (s[0] == '/' ==> 1 + |seg| + |rest| <= |s|)
  {
    SegmentNonEmpty(s);
  }

  /** Canonicalising an absolute path never makes it longer. */
  lemma {:induction false} StackIsNoLonger(stack: seq<string>, s: string)
    requires s == "" || s[0] == '/'
    ensures |Spell(Bounded(stack, Split(s)))| <= |Spell(stack)| + |s|
    decreases |s|
  {
    var t := SkipSlashes(s);
    if t != "" {
      SplitStep(s);
      var seg, rest := t[..SegLen(t)], t[SegLen(t)..];
      if !(Plainly(seg) && |stack| >= MAX_SEGMENTS) {
        PushLength(stack, seg);
        StackIsNoLonger(Push(stack, seg), rest);
      }
    }
  }

  // ---- What canonicalisation promises ---------------------------------------------------------------

  /** With an absolute working directory the result has no empty, `.` or `..` segment and
      fits the buffer, whatever the path. */
  lemma CanonIsClean(cwd: string, path: string)
    requires Absolute(cwd)
    ensures Clean(Split(Canon(cwd, path))) && Absolute(Canon(cwd, path)) && |Canon(cwd, path)| < ROOM
    ensures Canon(cwd, path) == Render(Split(Canon(cwd, path)))
  {
    var abs := Join(cwd, path);
    JoinIsAbsolute(cwd, path);
    SplitGivesSegments(abs);
    BoundedIsClean([], Split(abs));
    var stack := Bounded([], Split(abs));
    SplitUndoesSpell(stack);
    SpellStarts(stack);
    StackIsNoLonger([], abs);
    if stack != [] {
      SpellFront(stack);
    }
  }

  /** Canonicalising twice is canonicalising once. */
  lemma CanonIsIdempotent(cwd: string, path: string)
    requires Absolute(cwd)
    ensures Canon(cwd, Canon(cwd, path)) == Canon(cwd, path)
  {
    CanonIsClean(cwd, path);
    var out := Canon(cwd, path);
    assert Join(cwd, out) == out;
    CleanRunsThrough([], Split(out));
    assert [] + Split(out) == Split(out);
  }

  lemma {:induction false} SkipBeforeSlash(s: string)
    ensures SkipSlashes(s + "/") == if SkipSlashes(s) == "" then "" else SkipSlashes(s) + "/"
  {
    if s == "" {
      assert s + "/" == "/" && "/"[1..] == "";
    } else if s[0] == '/' {
      assert (s + "/")[1..] == s[1..] + "/";
      SkipBeforeSlash(s[1..]);
    }
  }

  lemma SegLenBeforeSlash(t: string)
    ensures SegLen(t + "/") == SegLen(t)
  {
    var n, m := SegLen(t + "/"), SegLen(t);
    assert (t + "/")[m] == '/';
    assert n < |t| ==> (t + "/")[n] == t[n];
  }

  /** A slash at the end adds no segment. */
  lemma {:induction false} TrailingSlash(s: string)
    ensures Split(s + "/") == Split(s)
    decreases |s|
  {
    SkipBeforeSlash(s);
    var t := SkipSlashes(s);
    if t != "" {
      SegLenBeforeSlash(t);
      SegmentNonEmpty(s);
      assert (t + "/")[..SegLen(t)] == t[..SegLen(t)];
      assert (t + "/")[SegLen(t)..] == t[SegLen(t)..] + "/";
      TrailingSlash(t[SegLen(t)..]);
    }
  }

  /** A joined path that fits the buffer keeps its segments. */
  lemma JoinKeepsSegments(cwd: string, path: string)
    requires Absolute(cwd) && !Absolute(path) && |WithSlash(cwd) + path| < ROOM
    ensures Split(Join(cwd, path)) == Split(WithSlash(cwd) + path)
  {
    var dir := Take(cwd, ROOM - 2);
    if |cwd| <= ROOM - 2 {
      assert Join(cwd, path) == WithSlash(cwd) + path;
    } else {
      assert path == "" && WithSlash(cwd) == cwd == dir + "/";
      TrailingSlash(dir);
      assert Join(cwd, path) == dir + "/" || Join(cwd, path) == dir;
      assert WithSlash(cwd) + path == cwd;
    }
  }

  /** Paths that fit mean what the unlimited stack says of the whole joined path. */
  lemma CanonIsStackInterpretation(cwd: string, path: string)
    requires Absolute(cwd) && !Absolute(path) && |WithSlash(cwd) + path| < ROOM
    requires Fits([], Split(WithSlash(cwd) + path))
    ensures Canon(cwd, path) == Render(Interpret([], Split(WithSlash(cwd) + path)))
  {
    JoinKeepsSegments(cwd, path);
    BoundedIsInterpret([], Split(WithSlash(cwd) + path));
  }

  lemma CanonOfAbsolute(cwd: string, path: string)
    requires Absolute(path) && |path| < ROOM && Fits([], Split(path))
    ensures Canon(cwd, path) == Render(Interpret([], Split(path)))
  {
    assert Join(cwd, path) == path;
    BoundedIsInterpret([], Split(path));
  }

  // ---- Parent and base name ---------------------------------------------------------------------------

  /** Cutting a canonical path at its last slash. */
  lemma ParentAndBase(stack: seq<string>)
    requires Clean(stack) && stack != []
    ensures var n := |stack| - 1;
            var cut := |Spell(stack[..n])|;
            && cut < |Render(stack)| && Render(stack)[cut] == '/'
            && (forall i | cut < i < |Render(stack)| :: Render(stack)[i] != '/')
            && Render(stack)[..cut] == Spell(stack[..n]) && Render(stack)[cut + 1..] == stack[n]
  {
    var n := |stack| - 1;
    var a, b := Spell(stack[..n]), stack[n];
    assert Render(stack) == a + "/" + b;
    assert CleanSegment(b);
  }

  // ---- The routines -----------------------------------------------------------------------------------

  /** Copies characters while the buffer holds fewer than `limit`. */
  method AppendUpTo(dst: string, src: string, limit: nat) returns (out: string)
    requires |dst| <= limit
    ensures out == dst + Take(src, limit - |dst|)
  {
    out := dst;
    var i := 0;
    while i < |src| && |out| < limit
      invariant i <= |src| && out == dst + src[..i] && |out| <= limit
    {
      out := out + [src[i]];
      i := i + 1;
    }
    assert src[..i] == Take(src, limit - |dst|);
  }

  /** `vfs_make_abs` into a buffer of 512 bytes. */
  method MakeAbs(cwd: string, path: string) returns (abs: string)
    ensures abs == Join(cwd, path)
  {
    abs := "";
    if !Absolute(path) {
      abs := AppendUpTo(abs, cwd, ROOM - 2);
      assert abs == Take(cwd, ROOM - 2);
      if |abs| > 0 && abs[|abs| - 1] != '/' {
        abs := abs + "/";
      }
    }
    assert abs == Before(cwd, path);
    abs := AppendUpTo(abs, path, ROOM - 1);
  }

  /** The segments a list of positions stands for. */
  function At(abs: string, marks: seq<(nat, nat)>): (segs: seq<string>)
    requires forall i | 0 <= i < |marks| :: marks[i].0 + marks[i].1 <= |abs|
    ensures |segs| == |marks| && forall i | 0 <= i < |marks| :: segs[i] == abs[marks[i].0..marks[i].0 + marks[i].1]
  {
    seq(|marks|, i requires 0 <= i < |marks| => abs[marks[i].0..marks[i].0 + marks[i].1])
  }

  /** Past the slashes at `at`, and then past the segment there. */
  method NextSegment(abs: string, at: nat) returns (start: nat, len: nat)
    requires at <= |abs|
    ensures at <= start && start + len <= |abs| && abs[start..] == SkipSlashes(abs[at..]) && len == SegLen(abs[start..])
  {
    start := at;
    while start < |abs| && abs[start] == '/'
      invariant at <= start <= |abs| && SkipSlashes(abs[start..]) == SkipSlashes(abs[at..])
    {
      assert abs[start..][1..] == abs[start + 1..];
      start := start + 1;
    }
    len := MeasureSegment(abs, start);
  }

  method MeasureSegment(abs: string, start: nat) returns (len: nat)
    requires start <= |abs|
    ensures start + len <= |abs| && len == SegLen(abs[start..])
  {
    len := 0;
    while start + len < |abs| && abs[start + len] != '/'
      invariant start + len <= |abs| && SegLen(abs[start..]) == len + SegLen(abs[start + len..])
    {
      assert abs[start + len..][1..] == abs[start + len + 1..];
      len := len + 1;
    }
  }

  ghost predicate MarksOk(abs: string, marks: seq<(nat, nat)>) {
    |marks| <= MAX_SEGMENTS && forall i | 0 <= i < |marks| :: marks[i].0 + marks[i].1 <= |abs|
  }

  /** What one segment does to the stack of positions. */
  method PushMark(abs: string, marks: seq<(nat, nat)>, start: nat, len: nat) returns (full: bool, r: seq<(nat, nat)>)
    requires MarksOk(abs, marks) && start + len <= |abs|
    ensures full <==> Plainly(abs[start..start + len]) && |marks| >= MAX_SEGMENTS
    ensures MarksOk(abs, r) && (full ==> r == marks)
    ensures !full ==> At(abs, r) == Push(At(abs, marks), abs[start..start + len])
  {
    var seg := abs[start..start + len];
    full, r := false, marks;
    if seg == "." {
      return;
    }
    if seg == ".." {
      if |marks| > 0 {
        r := marks[..|marks| - 1];
      }
      assert At(abs, r) == Push(At(abs, marks), seg);
      return;
    }
    if |marks| >= MAX_SEGMENTS {
      full := true;
      return;
    }
    r := marks + [(start, len)];
    assert At(abs, r) == Push(At(abs, marks), seg);
  }

  lemma BoundedStep(stack: seq<string>, s: string, seg: string, rest: string, full: bool, after: seq<string>)
    requires var t := SkipSlashes(s); t != "" && seg == t[..SegLen(t)] && rest == t[SegLen(t)..]
    requires full <==> Plainly(seg) && |stack| >= MAX_SEGMENTS
    requires after == if full then stack else Push(stack, seg)
    ensures seg != "" && Bounded(stack, Split(s)) == if full then after else Bounded(after, Split(rest))
  {
    SplitStep(s);
  }

  lemma BoundedEnd(stack: seq<string>, s: string)
    requires SkipSlashes(s) == ""
    ensures Bounded(stack, Split(s)) == stack
  {
  }

  /** One round of the loop over the segments. */
  method Advance(abs: string, at: nat, marks: seq<(nat, nat)>) returns (done: bool, next: nat, r: seq<(nat, nat)>)
    requires at < |abs| && MarksOk(abs, marks)
    ensures MarksOk(abs, r) && at < next <= |abs|
    ensures Bounded(At(abs, marks), Split(abs[at..])) == if done then At(abs, r) else Bounded(At(abs, r), Split(abs[next..]))
  {
    var start, len := NextSegment(abs, at);
    if start == |abs| {
      BoundedEnd(At(abs, marks), abs[at..]);
      return true, start, marks;
    }
    next := start + len;
    var seg := abs[start..next];
    assert abs[start..][..len] == seg && abs[start..][len..] == abs[next..];
    done, r := PushMark(abs, marks, start, len);
    BoundedStep(At(abs, marks), abs[at..], seg, abs[next..], done, At(abs, r));
  }

  /** The loop that keeps the stack of segment positions. */
  method Collect(abs: string) returns (marks: seq<(nat, nat)>)
    ensures MarksOk(abs, marks) && At(abs, marks) == Bounded([], Split(abs))
  {
    marks := [];
    var at, done := 0, false;
    assert abs[0..] == abs && At(abs, marks) == [];
    while at < |abs|
      invariant at <= |abs| && MarksOk(abs, marks)
      invariant Bounded(At(abs, marks), Split(abs[at..])) == Bounded([], Split(abs))
    {
      done, at, marks := Advance(abs, at, marks);
      if done {
        return;
      }
    }
  }

  lemma {:induction false} SpellPrefix(stack: seq<string>, i: nat)
    requires i <= |stack|
    ensures |Spell(stack[..i])| <= |Spell(stack)|
    ensures i < |stack| ==> Spell(stack[..i + 1]) == Spell(stack[..i]) + "/" + stack[i]
    decreases |stack| - i
  {
    if i < |stack| {
      assert stack[..i + 1][..i] == stack[..i];
      SpellPrefix(stack, i + 1);
    } else {
      assert stack[..i] == stack;
    }
  }

  /** While segments remain, there is room for a slash and a character. */
  lemma RoomLeft(stack: seq<string>, i: nat)
    requires Clean(stack) && i <= |stack| && |Spell(stack)| < ROOM
    ensures i < |stack| ==> |Spell(stack[..i])| < ROOM - 2
  {
    if i < |stack| {
      SpellPrefix(stack, i);
      SpellPrefix(stack, i + 1);
      assert CleanSegment(stack[i]);
    }
  }

  /** Appends a slash and a segment, within the buffer. */
  method AppendSegment(p: string, seg: string) returns (out: string)
    requires |p| + 1 + |seg| < ROOM
    ensures out == p + "/" + seg
  {
    out := p + "/";
    var j := 0;
    while j < |seg| && |out| < ROOM - 1
      invariant j <= |seg| && out == p + "/" + seg[..j]
    {
      out := out + [seg[j]];
      j := j + 1;
    }
    assert seg[..|seg|] == seg;
  }

  /** The output loop: its bounds never cut a path that fits. */
  method WriteOut(abs: string, marks: seq<(nat, nat)>) returns (out: string)
    requires MarksOk(abs, marks) && Clean(At(abs, marks)) && |Spell(At(abs, marks))| < ROOM
    ensures out == Render(At(abs, marks))
  {
    ghost var stack := At(abs, marks);
    out := "";
    var i := 0;
    assert stack[..0] == [];
    RoomLeft(stack, 0);
    while i < |marks| && |out| < ROOM - 2
      invariant i <= |marks| && out == Spell(stack[..i]) && (i < |marks| ==> |out| < ROOM - 2)
    {
      RoomLeft(stack, i + 1);
      SpellPrefix(stack, i);
      SpellPrefix(stack, i + 1);
      out := AppendSegment(out, abs[marks[i].0..marks[i].0 + marks[i].1]);
      i := i + 1;
    }
    assert stack[..i] == stack;
    if |out| == 0 {
      EmptySpelling(stack);
      out := "/";
    }
  }

  /** `_canon_abs`. */
  method CanonAbs(cwd: string, path: string) returns (out: string)
    requires Absolute(cwd)
    ensures out == Canon(cwd, path)
  {
    var abs := MakeAbs(cwd, path);
    var marks := Collect(abs);
    SplitGivesSegments(abs);
    BoundedIsClean([], Split(abs));
    JoinIsAbsolute(cwd, path);
    StackIsNoLonger([], abs);
    out := WriteOut(abs, marks);
  }

  lemma JoinIsAbsolute(cwd: string, path: string)
    requires Absolute(cwd)
    ensures Absolute(Join(cwd, path))
  {
  }

  lemma EmptySpelling(stack: seq<string>)
    ensures Spell(stack) == "" <==> stack == []
  {
  }

  /** The last segment of a canonical path, empty for the root. */
  function BaseOf(c: string): string {
    var stack := Split(c);
    if stack == [] then "" else stack[|stack| - 1]
  }

  /** The split of `vfs_resolve_parent_follow`: the path to walk and the name to find in
      it, cut to the caller's buffer; for a name in the root the walk is skipped.  Nothing
      is lost exactly when the name fits. */
  method SplitParent(cwd: string, path: string, room: nat) returns (parent: string, base: string)
    requires Absolute(cwd)
    ensures parent + "/" + BaseOf(Canon(cwd, path)) == Canon(cwd, path)
    ensures Canon(cwd, path) != "/" ==>
              var stack := Split(Canon(cwd, path));
              stack != [] && parent == Spell(stack[..|stack| - 1])
    ensures base <= BaseOf(Canon(cwd, path)) && |base| <= room
    ensures parent + "/" + base == Canon(cwd, path) <==> |BaseOf(Canon(cwd, path))| <= room
  {
    var abs := CanonAbs(cwd, path);
    CanonIsClean(cwd, path);
    var last := LastSlash(abs);
    CutCanon(cwd, path, last);
    parent := abs[..last];
    base := CopyName(abs[last + 1..], room);
    Rebuilt(abs, last, base);
  }

  lemma CutCanon(cwd: string, path: string, last: nat)
    requires Absolute(cwd) && last < |Canon(cwd, path)|
    requires Canon(cwd, path)[last] == '/' && forall k | last < k < |Canon(cwd, path)| :: Canon(cwd, path)[k] != '/'
    ensures var c := Canon(cwd, path);
            && c[last + 1..] == BaseOf(c)
            && (c != "/" ==> Split(c) != [] && c[..last] == Spell(Split(c)[..|Split(c)| - 1]))
  {
    CanonIsClean(cwd, path);
    if Canon(cwd, path) != "/" {
      CutAtLast(Split(Canon(cwd, path)), last);
    }
  }

  /** A path cut at a slash and put together with part of what follows. */
  lemma Rebuilt(c: string, last: nat, base: string)
    requires last < |c| && c[last] == '/' && base <= c[last + 1..]
    ensures c[..last] + "/" + c[last + 1..] == c
    ensures c[..last] + "/" + base == c <==> |base| == |c[last + 1..]|
  {
    if |base| == |c[last + 1..]| {
      assert base == c[last + 1..];
    } else {
      assert |c[..last] + "/" + base| < |c|;
    }
  }

  method CopyName(name: string, room: nat) returns (out: string)
    ensures out == if |name| <= room then name else name[..room]
  {
    out := "";
    var i := 0;
    while i < |name| && i < room
      invariant i <= |name| && i <= room && out == name[..i]
    {
      out := out + [name[i]];
      i := i + 1;
    }
  }

  method LastSlash(abs: string) returns (last: nat)
    requires Absolute(abs)
    ensures last < |abs| && abs[last] == '/' && forall k | last < k < |abs| :: abs[k] != '/'
  {
    last := 0;
    var i := 0;
    while i < |abs|
      invariant i <= |abs| && last < |abs| && abs[last] == '/' && (i > 0 ==> last < i)
      invariant forall k | last < k < i :: abs[k] != '/'
    {
      if abs[i] == '/' {
        last := i;
      }
      i := i + 1;
    }
  }

  lemma CutAtLast(stack: seq<string>, last: nat)
    requires Clean(stack) && stack != [] && last < |Render(stack)|
    requires Render(stack)[last] == '/' && forall k | last < k < |Render(stack)| :: Render(stack)[k] != '/'
    ensures Render(stack)[..last] == Spell(stack[..|stack| - 1]) && Render(stack)[last + 1..] == stack[|stack| - 1]
  {
    ParentAndBase(stack);
    assert last == |Spell(stack[..|stack| - 1])|;
  }
}
