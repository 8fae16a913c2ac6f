/**
 * The OTB tree format (src/fileloader.cpp).
 *
 * A file is a four byte identifier followed by one node.  A node is a START marker, a
 * type byte, property bytes, child nodes and an END marker.  A property byte that looks
 * like a marker is preceded by ESCAPE.
 */
module Otb {
  import opened Basics

  const ESCAPE: byte := 0xFD
  const START: byte := 0xFE
  const END: byte := 0xFF
  const IDENTIFIER_SIZE := 4
  const MINIMAL_SIZE := 7
  const WILDCARD: seq<byte> := [0, 0, 0, 0]

  // ---------------------------------------------------------------------------------
  // The language that the parser accepts
  // ---------------------------------------------------------------------------------

  /**
   * One node as it lies in the file.  The props are still escaped.  The parser also
   * skips over property-like bytes after a child; each child keeps those as its gap.
   */
  datatype Raw = Raw(kind: byte, props: seq<byte>, kids: Kids)
  datatype Kids = NoKids | Kids(init: Kids, last: Raw, gap: seq<byte>)

  function Encode(r: Raw): seq<byte> {
    [START, r.kind] + r.props + EncodeKids(r.kids) + [END]
  }

  function EncodeKids(k: Kids): seq<byte> {
    match k
    case NoKids => []
    case Kids(init, last, gap) => EncodeKids(init) + Encode(last) + gap
  }

  predicate IsMarker(b: byte) {
    b == ESCAPE || b == START || b == END
  }

  /** Bytes without a bare marker: every marker is the second half of an escape pair. */
  predicate Plain(s: seq<byte>) {
    s == [] ||
    (if s[0] == ESCAPE then |s| >= 2 && Plain(s[2..]) else !IsMarker(s[0]) && Plain(s[1..]))
  }

  predicate WellFormed(r: Raw) {
    Plain(r.props) && WellFormedKids(r.kids)
  }

  predicate WellFormedKids(k: Kids) {
    match k
    case NoKids => true
    case Kids(init, last, gap) => WellFormedKids(init) && WellFormed(last) && Plain(gap)
  }

  // ---------------------------------------------------------------------------------
  // The parser as a machine over tokens
  // ---------------------------------------------------------------------------------

  /** A node whose END has not been seen yet. */
  datatype Frame = Frame(kind: byte, props: seq<byte>, kids: Kids)

  /** Open: the parse stack, bottom first.  Closed: the root has ended. */
  datatype State = Open(stack: seq<Frame>) | Closed(root: Raw, junk: seq<byte>) | Bad

  function ToRaw(f: Frame): Raw {
    Raw(f.kind, f.props, f.kids)
  }

  /** Property-like bytes belong to the props until the first child, then to its gap. */
  function Extend(f: Frame, s: seq<byte>): Frame {
    match f.kids
    case NoKids => f.(props := f.props + s)
    case Kids(init, last, gap) => f.(kids := Kids(init, last, gap + s))
  }

  function Skip(st: State, s: seq<byte>): State
    requires st.Open? ==> st.stack != []
  {
    match st
    case Open(stack) => Open(Front(stack) + [Extend(Last(stack), s)])
    case Closed(root, junk) => Closed(root, junk + s)
    case Bad => Bad
  }

  function Attach(stack: seq<Frame>, r: Raw): seq<Frame>
    requires stack != []
  {
    Front(stack) + [Last(stack).(kids := Kids(Last(stack).kids, r, []))]
  }

  function Close(stack: seq<Frame>): State
    requires stack != []
  {
    if |stack| == 1 then Closed(ToRaw(stack[0]), [])
    else Open(Attach(Front(stack), ToRaw(Last(stack))))
  }

  predicate Live(st: State) {
    st.Open? ==> st.stack != []
  }

  /** One turn of the parser's loop: the new state and the number of bytes it used. */
  function Step(st: State, input: seq<byte>): (r: (State, nat))
    requires Live(st) && input != []
    ensures Live(r.0) && 1 <= r.1 <= |input|
  {
    if st.Bad? then (Bad, 1)
    else if input[0] == START then
      if st.Open? && |input| >= 2 then (Open(st.stack + [Frame(input[1], [], NoKids)]), 2) else (Bad, 1)
    else if input[0] == END then
      if st.Open? then (Close(st.stack), 1) else (Bad, 1)
    else if input[0] == ESCAPE then
      if |input| >= 2 then (Skip(st, input[..2]), 2) else (Bad, 1)
    else (Skip(st, input[..1]), 1)
  }

  function Run(st: State, input: seq<byte>): State
    requires Live(st)
    decreases |input|
  {
    if input == [] then st
    else
      var (next, used) := Step(st, input);
      Run(next, input[used..])
  }

  /** The header checks of the constructor and the first lines of the parser. */
  predicate HeaderOk(file: seq<byte>, accepted: seq<byte>) {
    && |file| > MINIMAL_SIZE
    && (file[..IDENTIFIER_SIZE] == accepted || file[..IDENTIFIER_SIZE] == WILDCARD)
    && file[IDENTIFIER_SIZE] == START
  }

  function Parse(file: seq<byte>, accepted: seq<byte>): (r: Option<Raw>) {
    if !HeaderOk(file, accepted) then None
    else
      var st := Run(Open([Frame(file[5], [], NoKids)]), file[6..]);
      if st.Closed? then Some(st.root) else None
  }

  // ---------------------------------------------------------------------------------
  // Whatever is accepted is in the language
  // ---------------------------------------------------------------------------------

  function EncodeStack(stack: seq<Frame>): seq<byte> {
    if stack == [] then []
    else
      EncodeStack(Front(stack)) + EncodeFrame(Last(stack))
  }

  function EncodeFrame(f: Frame): seq<byte> {
    [START, f.kind] + f.props + EncodeKids(f.kids)
  }

  /** The bytes that a state accounts for. */
  function EncodeState(st: State): seq<byte> {
    match st
    case Open(stack) => EncodeStack(stack)
    case Closed(root, junk) => Encode(root) + junk
    case Bad => []
  }

  predicate Sane(st: State) {
    match st
    case Open(stack) => stack != [] && forall f <- stack :: WellFormed(ToRaw(f))
    case Closed(root, junk) => WellFormed(root) && Plain(junk)
    case Bad => true
  }

  lemma {:induction false} PlainAppend(a: seq<byte>, b: seq<byte>)
    requires Plain(a) && Plain(b)
    ensures Plain(a + b)
    decreases |a|
  {
    if a == [] {
      assert a + b == b;
    } else {
      var n := if a[0] == ESCAPE then 2 else 1;
      PlainAppend(a[n..], b);
      assert (a + b)[n..] == a[n..] + b;
    }
  }

  lemma EncodeAttach(stack: seq<Frame>, r: Raw)
    requires stack != []
    ensures EncodeStack(Attach(stack, r)) == EncodeStack(stack) + Encode(r)
  {
    var f := Last(stack);
    var next := Attach(stack, r);
    assert Front(next) == Front(stack);
    assert EncodeKids(Last(next).kids) == EncodeKids(f.kids) + Encode(r);
    assert EncodeFrame(Last(next)) == EncodeFrame(f) + Encode(r);
  }

  lemma ExtendSound(f: Frame, s: seq<byte>)
    requires WellFormed(ToRaw(f)) && Plain(s)
    ensures WellFormed(ToRaw(Extend(f, s)))
    ensures EncodeFrame(Extend(f, s)) == EncodeFrame(f) + s
  {
    match f.kids
    case NoKids =>
      PlainAppend(f.props, s);
    case Kids(init, last, gap) =>
      assert WellFormedKids(f.kids);
      PlainAppend(gap, s);
      var before := EncodeKids(init) + Encode(last);
      ConcatAssociative(before, gap, s);
      ConcatAssociative([START, f.kind] + f.props, EncodeKids(f.kids), s);
  }

  lemma SkipSound(st: State, s: seq<byte>)
    requires Sane(st) && !st.Bad? && Plain(s)
    ensures Sane(Skip(st, s))
    ensures EncodeState(Skip(st, s)) == EncodeState(st) + s
  {
    match st
    case Open(stack) =>
      assert WellFormed(ToRaw(Last(stack)));
      ExtendSound(Last(stack), s);
      assert Front(Skip(st, s).stack) == Front(stack);
    case Closed(root, junk) =>
      PlainAppend(junk, s);
  }

  lemma StepSound(st: State, input: seq<byte>)
    requires Sane(st) && input != [] && !Step(st, input).0.Bad?
    ensures Sane(Step(st, input).0)
    ensures EncodeState(Step(st, input).0) == EncodeState(st) + input[..Step(st, input).1]
  {
    var (next, used) := Step(st, input);
    if input[0] == START {
      var f := Frame(input[1], [], NoKids);
      assert next.stack == st.stack + [f] && Front(next.stack) == st.stack;
      assert WellFormed(ToRaw(f));
      assert input[..2] == [START, input[1]];
    } else if input[0] == END {
      CloseSound(st.stack);
      assert input[..1] == [END];
    } else if input[0] == ESCAPE {
      assert input[..2][2..] == [];
      SkipSound(st, input[..2]);
    } else {
      assert input[..1][1..] == [];
      SkipSound(st, input[..1]);
    }
  }

  lemma CloseSound(stack: seq<Frame>)
    requires Sane(Open(stack))
    ensures Sane(Close(stack))
    ensures EncodeState(Close(stack)) == EncodeStack(stack) + [END]
  {
    var below, f := Front(stack), Last(stack);
    var r := ToRaw(f);
    assert WellFormed(r);
    assert EncodeStack(below) + Encode(r) == EncodeStack(stack) + [END];
    if |stack| == 1 {
      assert below == [];
    } else {
      EncodeAttach(below, r);
      assert WellFormed(ToRaw(Last(below)));
      assert WellFormed(ToRaw(Last(Attach(below, r))));
    }
  }

  lemma {:induction false} RunSound(st: State, input: seq<byte>)
    requires Sane(st) && !Run(st, input).Bad?
    ensures Sane(Run(st, input))
    ensures EncodeState(Run(st, input)) == EncodeState(st) + input
    decreases |input|
  {
    if input == [] {
      assert EncodeState(st) + input == EncodeState(st);
    } else {
      var (next, used) := Step(st, input);
      if next.Bad? {
        BadStaysBad(input[used..]);
      }
      StepSound(st, input);
      var read, rest := input[..used], input[used..];
      RunSound(next, rest);
      SplitAt(input, used);
      ConcatAssociative(EncodeState(st), read, rest);
    }
  }

  lemma {:induction false} BadStaysBad(input: seq<byte>)
    ensures Run(Bad, input).Bad?
    decreases |input|
  {
    if input != [] {
      BadStaysBad(input[1..]);
    }
  }

  // ---------------------------------------------------------------------------------
  // Whatever is in the language is accepted
  // ---------------------------------------------------------------------------------

  lemma {:induction false} RunPlain(st: State, s: seq<byte>, rest: seq<byte>)
    requires Live(st) && !st.Bad? && Plain(s)
    ensures Run(st, s + rest) == Run(Skip(st, s), rest)
    decreases |s|
  {
    if s == [] {
      assert s + rest == rest;
      SkipNothing(st);
    } else {
      var n := if s[0] == ESCAPE then 2 else 1;
      assert (s + rest)[..n] == s[..n] && (s + rest)[n..] == s[n..] + rest;
      RunPlain(Skip(st, s[..n]), s[n..], rest);
      SkipTwice(st, s[..n], s[n..]);
      assert s == s[..n] + s[n..];
    }
  }

  lemma SkipNothing(st: State)
    requires Live(st)
    ensures Skip(st, []) == st
  {
    match st
    case Open(stack) =>
      var f := Last(stack);
      assert f.props + [] == f.props;
      assert f.kids.Kids? ==> f.kids.gap + [] == f.kids.gap;
      assert stack == Front(stack) + [f];
    case Closed(root, junk) => assert junk + [] == junk;
    case Bad =>
  }

  lemma SkipTwice(st: State, a: seq<byte>, b: seq<byte>)
    requires Live(st)
    ensures Skip(Skip(st, a), b) == Skip(st, a + b)
  {
    match st
    case Open(stack) =>
      var f := Last(stack);
      assert f.props + a + b == f.props + (a + b);
      assert f.kids.Kids? ==> f.kids.gap + a + b == f.kids.gap + (a + b);
      assert Front(Skip(st, a).stack) == Front(stack);
    case Closed(root, junk) => assert junk + a + b == junk + (a + b);
    case Bad =>
  }

  /** Parsing an encoded node attaches it to the node on top of the stack. */
  lemma {:induction false} RunNode(stack: seq<Frame>, r: Raw, rest: seq<byte>)
    requires stack != [] && WellFormed(r)
    ensures Run(Open(stack), Encode(r) + rest) == Run(Open(Attach(stack, r)), rest)
    decreases r, 1
  {
    var body := r.props + EncodeKids(r.kids) + ([END] + rest);
    var input := Encode(r) + rest;
    assert input[2..] == body && input[1] == r.kind;
    RunBody(stack, r, [END] + rest);
    var full := stack + [Frame(r.kind, r.props, r.kids)];
    assert ([END] + rest)[1..] == rest;
    assert Front(full) == stack;
    assert Step(Open(full), [END] + rest) == (Open(Attach(stack, r)), 1);
  }

  /** After its START and type byte, the props and kids of a node fill its frame. */
  lemma {:induction false} RunBody(below: seq<Frame>, r: Raw, rest: seq<byte>)
    requires WellFormed(r)
    ensures Run(Open(below + [Frame(r.kind, [], NoKids)]), r.props + EncodeKids(r.kids) + rest)
         == Run(Open(below + [Frame(r.kind, r.props, r.kids)]), rest)
    decreases r, 0
  {
    var f0 := Frame(r.kind, [], NoKids);
    var f1 := Frame(r.kind, r.props, NoKids);
    var st := Open(below + [f0]);
    assert r.props + EncodeKids(r.kids) + rest == r.props + (EncodeKids(r.kids) + rest);
    RunPlain(st, r.props, EncodeKids(r.kids) + rest);
    assert Front(st.stack) == below;
    assert [] + r.props == r.props;
    assert Skip(st, r.props) == Open(below + [f1]);
    RunKids(below, f1, r.kids, rest);
  }

  lemma {:induction false} RunKids(below: seq<Frame>, f: Frame, k: Kids, rest: seq<byte>)
    requires f.kids.NoKids? && WellFormedKids(k)
    ensures Run(Open(below + [f]), EncodeKids(k) + rest) == Run(Open(below + [f.(kids := k)]), rest)
    decreases k, 0
  {
    match k
    case NoKids =>
      assert EncodeKids(k) + rest == rest;
    case Kids(init, last, gap) =>
      assert EncodeKids(k) + rest == EncodeKids(init) + (Encode(last) + (gap + rest));
      RunKids(below, f, init, Encode(last) + (gap + rest));
      var st1 := below + [f.(kids := init)];
      RunNode(st1, last, gap + rest);
      var st2 := Attach(st1, last);
      assert Front(st1) == below && st2 == below + [f.(kids := Kids(init, last, []))];
      RunPlain(Open(st2), gap, rest);
      assert [] + gap == gap;
      assert Front(st2) == below;
  }

  /**
   * The parser accepts exactly the files that hold one well-formed node after an
   * accepted identifier, followed by nothing that looks like a marker, and it returns
   * that node.  The only node that is refused is a root with no content and nothing
   * behind it: such a file is no longer than the minimal size.
   */
  lemma ParseExact(file: seq<byte>, accepted: seq<byte>, root: Raw)
    ensures Parse(file, accepted) == Some(root) <==>
            && |file| > MINIMAL_SIZE
            && (file[..IDENTIFIER_SIZE] == accepted || file[..IDENTIFIER_SIZE] == WILDCARD)
            && WellFormed(root)
            && exists junk :: Plain(junk) && file[IDENTIFIER_SIZE..] == Encode(root) + junk
  {
    if Parse(file, accepted) == Some(root) {
      ParseSound(file, accepted, root);
    }
    if && |file| > MINIMAL_SIZE
       && (file[..IDENTIFIER_SIZE] == accepted || file[..IDENTIFIER_SIZE] == WILDCARD)
       && WellFormed(root)
       && exists junk :: Plain(junk) && file[IDENTIFIER_SIZE..] == Encode(root) + junk
    {
      var junk :| Plain(junk) && file[IDENTIFIER_SIZE..] == Encode(root) + junk;
      ParseComplete(file, accepted, root, junk);
    }
  }

  lemma ParseComplete(file: seq<byte>, accepted: seq<byte>, root: Raw, junk: seq<byte>)
    requires |file| > MINIMAL_SIZE
    requires file[..IDENTIFIER_SIZE] == accepted || file[..IDENTIFIER_SIZE] == WILDCARD
    requires WellFormed(root) && Plain(junk) && file[IDENTIFIER_SIZE..] == Encode(root) + junk
    ensures Parse(file, accepted) == Some(root)
  {
    var body := root.props + EncodeKids(root.kids) + ([END] + junk);
    assert Encode(root) + junk == [START, root.kind] + body;
    HeaderBytes(file, root.kind, body);
    RunRoot(root, junk);
  }

  lemma HeaderBytes(file: seq<byte>, kind: byte, body: seq<byte>)
    requires |file| > MINIMAL_SIZE && file[IDENTIFIER_SIZE..] == [START, kind] + body
    ensures file[4] == START && file[5] == kind && file[6..] == body
  {
    var tail := file[IDENTIFIER_SIZE..];
    assert file[4] == tail[0] && file[5] == tail[1];
    assert file[6..] == tail[2..] == body;
  }

  lemma ParseSound(file: seq<byte>, accepted: seq<byte>, root: Raw)
    requires Parse(file, accepted) == Some(root)
    ensures WellFormed(root)
    ensures exists junk :: Plain(junk) && file[IDENTIFIER_SIZE..] == Encode(root) + junk
  {
    var f := Frame(file[5], [], NoKids);
    var st := Open([f]);
    assert Front(st.stack) == [] && WellFormed(ToRaw(f));
    assert EncodeStack([]) == [] && EncodeKids(f.kids) == [];
    assert EncodeState(st) == [] + EncodeFrame(f) == [START, file[5]];
    RunSound(st, file[6..]);
    assert file[IDENTIFIER_SIZE..] == [START, file[5]] + file[6..];
  }

  lemma RunRoot(root: Raw, junk: seq<byte>)
    requires WellFormed(root) && Plain(junk)
    ensures Run(Open([Frame(root.kind, [], NoKids)]), root.props + EncodeKids(root.kids) + ([END] + junk))
         == Closed(root, junk)
  {
    RunBody([], root, [END] + junk);
    var f0, f := Frame(root.kind, [], NoKids), Frame(root.kind, root.props, root.kids);
    assert [] + [f] == [f] && [] + [f0] == [f0];
    assert ([END] + junk)[1..] == junk;
    RunPlain(Closed(root, []), junk, []);
    assert junk + [] == junk && [] + junk == junk;
  }

  // ---------------------------------------------------------------------------------
  // Trees with their real properties
  // ---------------------------------------------------------------------------------

  /** What an author of a file means: property bytes without escapes. */
  datatype Tree = Tree(kind: byte, props: seq<byte>, children: seq<Tree>)

  function Escape(s: seq<byte>): seq<byte> {
    if s == [] then []
    else (if IsMarker(s[0]) then [ESCAPE, s[0]] else [s[0]]) + Escape(s[1..])
  }

  /** The copy of the property bytes that drops each escape byte but keeps what it escapes. */
  function Unescape(s: seq<byte>, lastEscaped: bool): seq<byte> {
    if s == [] then []
    else
      var escaped := s[0] == ESCAPE && !lastEscaped;
      (if escaped then [] else [s[0]]) + Unescape(s[1..], escaped)
  }

  function Lift(t: Tree): Raw {
    Raw(t.kind, Escape(t.props), LiftAll(t.children))
  }

  function LiftAll(ts: seq<Tree>): Kids {
    if ts == [] then NoKids else Kids(LiftAll(Front(ts)), Lift(Last(ts)), [])
  }

  function TreeOf(r: Raw): Tree {
    Tree(r.kind, Unescape(r.props, false), TreesOf(r.kids))
  }

  function TreesOf(k: Kids): seq<Tree> {
    match k
    case NoKids => []
    case Kids(init, last, gap) => TreesOf(init) + [TreeOf(last)]
  }

  lemma {:induction false} EscapeUndone(s: seq<byte>)
    ensures Plain(Escape(s)) && Unescape(Escape(s), false) == s
    ensures Escape(s) == [] <==> s == []
  {
    if s != [] {
      EscapeUndone(s[1..]);
      if IsMarker(s[0]) {
        assert Escape(s) == [ESCAPE, s[0]] + Escape(s[1..]);
        assert Escape(s)[1..] == [s[0]] + Escape(s[1..]) && Escape(s)[2..] == Escape(s[1..]);
        assert ([s[0]] + Escape(s[1..]))[1..] == Escape(s[1..]);
        assert Unescape([s[0]] + Escape(s[1..]), true) == s;
      } else {
        assert Escape(s)[1..] == Escape(s[1..]);
      }
    }
  }

  lemma {:induction false} LiftUndone(t: Tree)
    ensures WellFormed(Lift(t)) && TreeOf(Lift(t)) == t
    decreases t, 0
  {
    EscapeUndone(t.props);
    LiftAllUndone(t.children);
  }

  lemma {:induction false} LiftAllUndone(ts: seq<Tree>)
    ensures WellFormedKids(LiftAll(ts)) && TreesOf(LiftAll(ts)) == ts
    decreases ts, 0
  {
    if ts != [] {
      LiftAllUndone(Front(ts));
      LiftUndone(Last(ts));
      assert ts == Front(ts) + [Last(ts)];
    }
  }

  predicate IsEmptyRoot(t: Tree) {
    t.props == [] && t.children == []
  }

  /** Parsing undoes encoding for every tree but the one that is too short to be a file. */
  lemma RoundTrip(id: seq<byte>, t: Tree)
    requires |id| == IDENTIFIER_SIZE
    ensures Parse(id + Encode(Lift(t)), id) == if IsEmptyRoot(t) then None else Some(Lift(t))
    ensures TreeOf(Lift(t)) == t
  {
    var file := id + Encode(Lift(t));
    LiftUndone(t);
    assert file[..4] == id && file[4..] == Encode(Lift(t)) + [];
    EscapeUndone(t.props);
    if IsEmptyRoot(t) {
      assert |file| == 7;
    } else {
      if t.children != [] {
        var kids := LiftAll(t.children);
        assert |EncodeKids(kids)| >= |Encode(kids.last)| >= 3;
      }
      assert |file| > 7;
      assert Plain([]);
      ParseExact(file, id, Lift(t));
    }
  }

  // ---------------------------------------------------------------------------------
  // The loader itself: nodes on the heap and an explicit stack of pointers
  // ---------------------------------------------------------------------------------

  class Node {
    var children: seq<Node>
    var propsBegin: nat
    var propsEnd: nat
    var kind: byte

    constructor (kind: byte, propsBegin: nat)
      ensures this.kind == kind && this.propsBegin == propsBegin
      ensures children == []
    {
      this.kind := kind;
      this.propsBegin := propsBegin;
      propsEnd := 0;
      children := [];
    }
  }

  /** The heap node n is r, lying at offset `at` of the file. */
  ghost predicate Matches(n: Node, r: Raw, at: nat, region: set<Node>)
    reads region
    decreases r, 1
  {
    && n in region
    && n.kind == r.kind
    && n.propsBegin == at + 2
    && n.propsEnd == at + 2 + |r.props|
    && MatchesAll(n.children, r.kids, at + 2 + |r.props|, region)
  }

  ghost predicate MatchesAll(ns: seq<Node>, k: Kids, at: nat, region: set<Node>)
    reads region
    decreases k, 0
  {
    match k
    case NoKids => ns == []
    case Kids(init, last, gap) =>
      ns != [] && MatchesAll(Front(ns), init, at, region) && Matches(Last(ns), last, at + |EncodeKids(init)|, region)
  }

  lemma {:induction false} MatchesLarger(n: Node, r: Raw, at: nat, small: set<Node>, large: set<Node>)
    requires small <= large && Matches(n, r, at, small)
    ensures Matches(n, r, at, large)
    decreases r, 1
  {
    MatchesAllLarger(n.children, r.kids, at + 2 + |r.props|, small, large);
  }

  lemma {:induction false} MatchesAllLarger(ns: seq<Node>, k: Kids, at: nat, small: set<Node>, large: set<Node>)
    requires small <= large && MatchesAll(ns, k, at, small)
    ensures MatchesAll(ns, k, at, large)
    decreases k, 0
  {
    match k
    case NoKids =>
    case Kids(init, last, gap) =>
      MatchesAllLarger(Front(ns), init, at, small, large);
      MatchesLarger(Last(ns), last, at + |EncodeKids(init)|, small, large);
  }

  /**
   * A node on the parse stack: its finished children are `kids`, and unless it is the
   * top, its last child is the node above it.
   */
  ghost predicate OnStack(n: Node, f: Frame, at: nat, kids: seq<Node>, above: seq<Node>, done: set<Node>)
    reads n, done
  {
    && n !in done
    && n.kind == f.kind
    && n.propsBegin == at + 2
    && n.children == kids + above
    && (n.children != [] ==> n.propsEnd == at + 2 + |f.props|)
    && MatchesAll(kids, f.kids, at + 2 + |f.props|, done)
  }

  /** The parse stack, read from the top; `above` is what has been pushed on it last. */
  ghost predicate StackInvariant(stack: seq<Node>, frames: seq<Frame>, kids: seq<seq<Node>>,
                                 above: seq<Node>, done: set<Node>)
    requires |stack| == |frames| == |kids|
    reads stack, done
    decreases |stack|
  {
    stack != [] ==>
      var at := IDENTIFIER_SIZE + |EncodeStack(Front(frames))|;
      && OnStack(Last(stack), Last(frames), at, Last(kids), above, done)
      && Last(stack) !in Front(stack)
      && StackInvariant(Front(stack), Front(frames), Front(kids), [Last(stack)], done)
  }

  lemma {:induction false} StackLarger(stack: seq<Node>, frames: seq<Frame>, kids: seq<seq<Node>>,
                                       above: seq<Node>, small: set<Node>, large: set<Node>)
    requires |stack| == |frames| == |kids| && StackInvariant(stack, frames, kids, above, small)
    requires small <= large && forall n <- stack :: n !in large
    ensures StackInvariant(stack, frames, kids, above, large)
    decreases |stack|
  {
    if stack != [] {
      var f := Last(frames);
      var at := IDENTIFIER_SIZE + |EncodeStack(Front(frames))|;
      MatchesAllLarger(Last(kids), f.kids, at + 2 + |f.props|, small, large);
      StackLarger(Front(stack), Front(frames), Front(kids), [Last(stack)], small, large);
    }
  }

  /** A complete node that was the last child of the new top becomes a finished child of it. */
  lemma Popped(stack: seq<Node>, frames: seq<Frame>, kids: seq<seq<Node>>, n: Node, r: Raw, done: set<Node>)
    requires |stack| == |frames| == |kids| && stack != [] && StackInvariant(stack, frames, kids, [n], done)
    requires Matches(n, r, IDENTIFIER_SIZE + |EncodeStack(frames)|, done)
    ensures StackInvariant(stack, Attach(frames, r), Front(kids) + [Last(kids) + [n]], [], done)
  {
    var f := Last(frames);
    var at := IDENTIFIER_SIZE + |EncodeStack(Front(frames))|;
    var full := Last(kids) + [n];
    var frames', kids' := Attach(frames, r), Front(kids) + [full];
    assert Front(frames') == Front(frames) && Front(kids') == Front(kids) && Last(kids') == full;
    assert Front(full) == Last(kids) && Last(full) == n;
    assert |EncodeStack(frames)| == |EncodeStack(Front(frames))| + |EncodeFrame(f)|;
    assert MatchesAll(full, Kids(f.kids, r, []), at + 2 + |f.props|, done);
    assert Last(kids) + [n] == full + [];
  }

  /** How the parse stack and the heap stand for a state of the machine. */
  ghost predicate Tracks(st: State, top: Node, stack: seq<Node>, kids: seq<seq<Node>>, done: set<Node>)
    reads top, stack, done
  {
    match st
    case Open(frames) =>
      && |stack| == |frames| == |kids| && stack != [] && stack[0] == top
      && (forall n <- stack :: n !in done)
      && StackInvariant(stack, frames, kids, [], done)
    case Closed(root, junk) => stack == [] && Matches(top, root, IDENTIFIER_SIZE, done)
    case Bad => false
  }

  /** START: the node on top of the stack gets a new last child, which becomes the top. */
  method BeginNode(stack: seq<Node>, it: nat, kind: byte, ghost frames: seq<Frame>, ghost top: Node,
                   ghost kids: seq<seq<Node>>, ghost done: set<Node>)
    returns (child: Node)
    requires Tracks(Open(frames), top, stack, kids, done)
    requires it == IDENTIFIER_SIZE + |EncodeStack(frames)|
    modifies Last(stack)
    ensures fresh(child)
    ensures Tracks(Open(frames + [Frame(kind, [], NoKids)]), top, stack + [child], kids + [[]], done)
  {
    var current := Last(stack);
    if current.children == [] {
      current.propsEnd := it;
    }
    child := new Node(kind, it + 2);
    current.children := current.children + [child];
    assert StackInvariant(stack, frames, kids, [child], done);
    assert Front(stack + [child]) == stack && Front(kids + [[]]) == kids;
    assert Front(frames + [Frame(kind, [], NoKids)]) == frames;
  }

  /** END: the node on top of the stack is complete and the stack is popped. */
  method EndNode(stack: seq<Node>, it: nat, ghost frames: seq<Frame>, ghost top: Node,
                 ghost kids: seq<seq<Node>>, ghost done: set<Node>)
    returns (below: seq<Node>, ghost kids': seq<seq<Node>>)
    requires Tracks(Open(frames), top, stack, kids, done)
    requires it == IDENTIFIER_SIZE + |EncodeStack(frames)|
    modifies Last(stack)
    ensures below == Front(stack)
    ensures Tracks(Close(frames), top, below, kids', done + {Last(stack)})
  {
    var current := Last(stack);
    if current.children == [] {
      current.propsEnd := it;
    }
    below := Front(stack);
    assert current.children == Last(kids);
    kids' := Pop(stack, frames, top, kids, done);
  }

  lemma Pop(stack: seq<Node>, frames: seq<Frame>, top: Node, kids: seq<seq<Node>>, done: set<Node>)
    returns (kids': seq<seq<Node>>)
    requires Tracks(Open(frames), top, stack, kids, done)
    requires Last(stack).children == Last(kids)
    requires Last(stack).propsEnd == IDENTIFIER_SIZE + |EncodeStack(Front(frames))| + 2 + |Last(frames).props|
    ensures Tracks(Close(frames), top, Front(stack), kids', done + {Last(stack)})
  {
    var below, n, f := Front(stack), Last(stack), Last(frames);
    var done', at := done + {n}, IDENTIFIER_SIZE + |EncodeStack(Front(frames))|;
    MatchesAllLarger(n.children, f.kids, at + 2 + |f.props|, done, done');
    assert Matches(n, ToRaw(f), at, done');
    kids' := Front(kids);
    if below == [] {
      assert Front(frames) == [];
    } else {
      StackLarger(below, Front(frames), kids', [n], done, done');
      Popped(below, Front(frames), kids', n, ToRaw(f), done');
      kids' := Front(kids') + [Last(kids') + [n]];
    }
  }

  /** Property bytes leave the heap alone. */
  lemma Skipped(st: State, s: seq<byte>, top: Node, stack: seq<Node>, kids: seq<seq<Node>>, done: set<Node>)
    requires Tracks(st, top, stack, kids, done)
    ensures Tracks(Skip(st, s), top, stack, kids, done)
  {
    if st.Open? {
      var frames := st.stack;
      var frames' := Skip(st, s).stack;
      assert Front(frames') == Front(frames);
      assert Last(frames').kids.NoKids? ==> Last(kids) == [];
    }
  }

  /** The bytes up to `it` have brought the machine to st, from where it will reach `end`. */
  ghost predicate Progress(file: seq<byte>, it: nat, st: State, end: State) {
    && it <= |file|
    && it == IDENTIFIER_SIZE + |EncodeState(st)|
    && !st.Bad? && Sane(st)
    && Run(st, file[it..]) == end
  }

  /** One turn of the loop, as the machine sees it. */
  lemma Turn(file: seq<byte>, it: nat, st: State, end: State) returns (next: State, used: nat)
    requires it < |file| && Progress(file, it, st, end)
    ensures (next, used) == Step(st, file[it..])
    ensures if next.Bad? then end.Bad? else Progress(file, it + used, next, end)
  {
    next, used := Step(st, file[it..]).0, Step(st, file[it..]).1;
    assert file[it..][used..] == file[it + used..];
    if next.Bad? {
      BadStaysBad(file[it + used..]);
    } else {
      StepSound(st, file[it..]);
    }
  }

  /** What the machine does with a token, read off its first bytes. */
  lemma TokenCases(file: seq<byte>, it: nat, st: State, end: State, top: Node, stack: seq<Node>, kids: seq<seq<Node>>, done: set<Node>)
    requires it < |file| && Progress(file, it, st, end) && Tracks(st, top, stack, kids, done)
    ensures Live(st) && it < |file| && (st.Open? <==> stack != []) && |file[it..]| >= 1 && (st.Open? ==> st.stack != [])
    ensures st.Open? ==> it == IDENTIFIER_SIZE + |EncodeStack(st.stack)|
    ensures Step(st, file[it..]) ==
            if file[it] == START then
              (if stack == [] || it + 1 == |file| then (Bad, 1) else (Open(st.stack + [Frame(file[it + 1], [], NoKids)]), 2))
            else if file[it] == END then (if stack == [] then (Bad, 1) else (Close(st.stack), 1))
            else if file[it] == ESCAPE && it + 1 == |file| then (Bad, 1)
            else
              var used := if file[it] == ESCAPE then 2 else 1;
              (Skip(st, file[it..it + used]), used)
  {
    hide Run, WellFormed, Plain, EncodeStack, StackInvariant, Close, Skip;
    assert it + 1 < |file| ==> file[it..][..2] == file[it..it + 2];
    assert file[it..][..1] == file[it..it + 1];
  }

  /** A START and the type byte behind it. */
  method TakeStart(file: seq<byte>, it: nat, stack: seq<Node>, ghost top: Node,
                   ghost st: State, ghost end: State, ghost kids: seq<seq<Node>>, ghost done: set<Node>)
    returns (ok: bool, stack': seq<Node>, ghost st': State, ghost kids': seq<seq<Node>>)
    requires it < |file| && file[it] == START && Progress(file, it, st, end) && Tracks(st, top, stack, kids, done)
    modifies if stack == [] then {} else {Last(stack)}
    ensures !ok ==> end.Bad?
    ensures ok ==> Progress(file, it + 2, st', end) && Tracks(st', top, stack', kids', done)
    ensures forall n <- stack' :: n in stack || fresh(n)
  {
    hide *;
    TokenCases(file, it, st, end, top, stack, kids, done);
    ghost var used;
    st', used := Turn(file, it, st, end);
    ok, stack', kids' := false, stack, kids;
    if stack == [] || it + 1 == |file| {
      return;
    }
    var child := BeginNode(stack, it, file[it + 1], st.stack, top, kids, done);
    ok, stack', kids' := true, stack + [child], kids + [[]];
  }

  /** An END. */
  method TakeEnd(file: seq<byte>, it: nat, stack: seq<Node>, ghost top: Node,
                 ghost st: State, ghost end: State, ghost kids: seq<seq<Node>>, ghost done: set<Node>)
    returns (ok: bool, stack': seq<Node>, ghost st': State, ghost kids': seq<seq<Node>>, ghost done': set<Node>)
    requires it < |file| && file[it] == END && Progress(file, it, st, end) && Tracks(st, top, stack, kids, done)
    modifies if stack == [] then {} else {Last(stack)}
    ensures !ok ==> end.Bad?
    ensures ok ==> Progress(file, it + 1, st', end) && Tracks(st', top, stack', kids', done')
    ensures forall n <- stack' :: n in stack
    ensures forall n <- done' :: n in done || n in stack
  {
    hide *;
    TokenCases(file, it, st, end, top, stack, kids, done);
    DifferentTokens();
    ghost var used;
    st', used := Turn(file, it, st, end);
    ok, stack', kids', done' := false, stack, kids, done;
    if stack == [] {
      return;
    }
    PartsOf(stack);
    stack', kids' := EndNode(stack, it, st.stack, top, kids, done);
    ok, done' := true, done + {Last(stack)};
  }

  lemma PartsOf(stack: seq<Node>)
    requires stack != []
    ensures Last(stack) in stack && forall n <- Front(stack) :: n in stack
  {
  }

  lemma DifferentTokens()
    ensures START != END && END != ESCAPE && ESCAPE != START
  {
  }

  /** A byte of props, or two if the first one escapes the second. */
  method TakeProp(file: seq<byte>, it: nat, stack: seq<Node>, ghost top: Node,
                  ghost st: State, ghost end: State, ghost kids: seq<seq<Node>>, ghost done: set<Node>)
    returns (ok: bool, it': nat, ghost st': State)
    requires it < |file| && file[it] != START && file[it] != END && Progress(file, it, st, end) && Tracks(st, top, stack, kids, done)
    ensures !ok ==> end.Bad?
    ensures ok ==> it < it' && Progress(file, it', st', end) && Tracks(st', top, stack, kids, done)
  {
    hide *;
    TokenCases(file, it, st, end, top, stack, kids, done);
    ghost var used;
    st', used := Turn(file, it, st, end);
    ok, it' := false, it + 1;
    if file[it] == ESCAPE {
      if it + 1 == |file| {
        return;
      }
      it' := it + 2;
    }
    Skipped(st, file[it..it'], top, stack, kids, done);
    ok := true;
  }

  /** The body of the parse loop: one token is taken in, or the file is refused. */
  method ParseToken(file: seq<byte>, it: nat, stack: seq<Node>, ghost top: Node,
                    ghost st: State, ghost end: State, ghost kids: seq<seq<Node>>, ghost done: set<Node>)
    returns (ok: bool, it': nat, stack': seq<Node>,
             ghost st': State, ghost kids': seq<seq<Node>>, ghost done': set<Node>)
    requires it < |file| && Progress(file, it, st, end) && Tracks(st, top, stack, kids, done)
    modifies if stack == [] then {} else {Last(stack)}
    ensures !ok ==> end.Bad?
    ensures ok ==> it < it' && Progress(file, it', st', end) && Tracks(st', top, stack', kids', done')
    ensures forall n <- stack' :: n in stack || fresh(n)
    ensures forall n <- done' :: n in done || n in stack
  {
    hide *;
    stack', kids', done' := stack, kids, done;
    if file[it] == START {
      ok, stack', st', kids' := TakeStart(file, it, stack, top, st, end, kids, done);
      it' := it + 2;
    } else if file[it] == END {
      ok, stack', st', kids', done' := TakeEnd(file, it, stack, top, st, end, kids, done);
      it' := it + 1;
    } else {
      ok, it', st' := TakeProp(file, it, stack, top, st, end, kids, done);
    }
  }

  /** The parse loop, entered behind the root's START and type byte. */
  method ParseNodes(file: seq<byte>, ghost end: State) returns (root: Node?, ghost region: set<Node>)
    requires |file| > MINIMAL_SIZE && file[IDENTIFIER_SIZE] == START
    requires end == Run(Open([Frame(file[5], [], NoKids)]), file[6..])
    ensures root == null <==> !end.Closed?
    ensures root != null ==> Matches(root, end.root, IDENTIFIER_SIZE, region)
    ensures fresh(region)
  {
    var it := IDENTIFIER_SIZE + 2;
    var top := new Node(file[it - 1], it);
    var stack := [top];
    ghost var f := Frame(file[5], [], NoKids);
    ghost var st, kids := Open([f]), [[]];
    root, region := null, {};
    RootFrame(f);
    RootNode(f, top);
    assert Progress(file, it, st, end);
    hide Tracks, Progress, Run;

    while it < |file|
      invariant Progress(file, it, st, end)
      invariant Tracks(st, top, stack, kids, region)
      invariant fresh(region) && forall n <- stack :: fresh(n)
    {
      assert stack != [] ==> Last(stack) in stack;
      var ok;
      ok, it, stack, st, kids, region := ParseToken(file, it, stack, top, st, end, kids, region);
      if !ok {
        return;
      }
    }
    AtEnd(file, it, st, end, top, stack, kids, region);
    if stack == [] {
      root := top;
    }
  }

  lemma RootNode(f: Frame, top: Node)
    requires f == Frame(top.kind, [], NoKids) && top.children == [] && top.propsBegin == IDENTIFIER_SIZE + 2
    ensures Tracks(Open([f]), top, [top], [[]], {})
  {
    var none: seq<Node> := [];
    assert Front([f]) == [] && Front([top]) == [] && Front([none]) == [];
    assert none + none == top.children;
  }

  lemma AtEnd(file: seq<byte>, it: nat, st: State, end: State,
              top: Node, stack: seq<Node>, kids: seq<seq<Node>>, done: set<Node>)
    requires it >= |file| && Progress(file, it, st, end) && Tracks(st, top, stack, kids, done)
    ensures stack == [] <==> end.Closed?
    ensures end.Closed? ==> Matches(top, end.root, IDENTIFIER_SIZE, done)
  {
  }

  /**
   * The loader's constructor checks followed by its parse loop.  It refuses exactly what
   * Parse refuses; otherwise it leaves a tree of heap nodes, every one of them complete,
   * whose offsets delimit the parsed node's props in the file.
   */
  method ParseTree(file: seq<byte>, accepted: seq<byte>) returns (root: Node?, ghost region: set<Node>)
    ensures root == null <==> Parse(file, accepted).None?
    ensures fresh(region)
    ensures root != null ==> Matches(root, Parse(file, accepted).value, IDENTIFIER_SIZE, region)
  {
    if |file| <= MINIMAL_SIZE {
      return null, {};
    }
    if file[..IDENTIFIER_SIZE] != accepted && file[..IDENTIFIER_SIZE] != WILDCARD {
      return null, {};
    }
    if file[IDENTIFIER_SIZE] != START {
      return null, {};
    }
    root, region := ParseNodes(file, Run(Open([Frame(file[5], [], NoKids)]), file[6..]));
  }

  lemma RootFrame(f: Frame)
    requires f.props == [] && f.kids == NoKids
    ensures Sane(Open([f])) && EncodeState(Open([f])) == [START, f.kind]
  {
    assert Front([f]) == [];
    assert EncodeKids(f.kids) == [] && EncodeStack([]) == [];
    assert EncodeStack([f]) == [] + EncodeFrame(f) == [START, f.kind];
    assert WellFormed(ToRaw(f));
  }

  /** The tree that a caller reads off a heap node by taking its props out of the file. */
  ghost function Read(file: seq<byte>, n: Node, r: Raw, at: nat, region: set<Node>): Tree
    requires Matches(n, r, at, region)
    reads region
    decreases r, 1
  {
    var props := if n.propsEnd <= |file| then file[n.propsBegin..n.propsEnd] else [];
    Tree(n.kind, Unescape(props, false), ReadAll(file, n.children, r.kids, at + 2 + |r.props|, region))
  }

  ghost function ReadAll(file: seq<byte>, ns: seq<Node>, k: Kids, at: nat, region: set<Node>): seq<Tree>
    requires MatchesAll(ns, k, at, region)
    reads region
    decreases k, 0
  {
    match k
    case NoKids => []
    case Kids(init, last, gap) =>
      ReadAll(file, Front(ns), init, at, region) + [Read(file, Last(ns), last, at + |EncodeKids(init)|, region)]
  }

  /** The offsets in a matched node delimit exactly its props, and those of its descendants. */
  lemma {:induction false} ReadIsTree(file: seq<byte>, before: seq<byte>, r: Raw, after: seq<byte>,
                                      n: Node, region: set<Node>)
    requires file == before + Encode(r) + after && Matches(n, r, |before|, region)
    ensures Read(file, n, r, |before|, region) == TreeOf(r)
    decreases r, 1
  {
    var head := before + [START, r.kind];
    var tail := [END] + after;
    assert file == head + r.props + (EncodeKids(r.kids) + tail);
    assert file[n.propsBegin..n.propsEnd] == r.props;
    assert file == (head + r.props) + EncodeKids(r.kids) + tail;
    ReadAllIsTrees(file, head + r.props, r.kids, tail, n.children, region);
  }

  lemma {:induction false} ReadAllIsTrees(file: seq<byte>, before: seq<byte>, k: Kids, after: seq<byte>,
                                          ns: seq<Node>, region: set<Node>)
    requires file == before + EncodeKids(k) + after && MatchesAll(ns, k, |before|, region)
    ensures ReadAll(file, ns, k, |before|, region) == TreesOf(k)
    decreases k, 0
  {
    match k
    case NoKids =>
    case Kids(init, last, gap) =>
      assert file == before + EncodeKids(init) + (Encode(last) + gap + after);
      ReadAllIsTrees(file, before, init, Encode(last) + gap + after, Front(ns), region);
      assert file == (before + EncodeKids(init)) + Encode(last) + (gap + after);
      ReadIsTree(file, before + EncodeKids(init), last, gap + after, Last(ns), region);
  }

  /** Writing any tree that makes a file and loading it again gives the tree back. */
  lemma LoadedTree(id: seq<byte>, t: Tree, root: Node, region: set<Node>)
    requires |id| == IDENTIFIER_SIZE && !IsEmptyRoot(t)
    requires Matches(root, Lift(t), IDENTIFIER_SIZE, region)
    ensures Read(id + Encode(Lift(t)), root, Lift(t), IDENTIFIER_SIZE, region) == t
  {
    var file := id + Encode(Lift(t));
    assert file == id + Encode(Lift(t)) + [];
    ReadIsTree(file, id, Lift(t), [], root, region);
    LiftUndone(t);
  }

  /**
   * Copies a node's property bytes without their escapes.  It fails exactly when the node
   * has none.
   */
  method GetProps(file: seq<byte>, n: Node) returns (ok: bool, props: seq<byte>)
    requires n.propsBegin <= n.propsEnd <= |file|
    ensures ok <==> n.propsBegin < n.propsEnd
    ensures props == Unescape(file[n.propsBegin..n.propsEnd], false)
  {
    props := [];
    if n.propsEnd - n.propsBegin == 0 {
      return false, [];
    }
    var slice := file[n.propsBegin..n.propsEnd];
    var lastEscaped := false;
    var i := 0;
    assert slice[0..] == slice && props + Unescape(slice, false) == Unescape(slice, false);
    assert Unescape([], true) == [] == Unescape([], false);
    hide Unescape;
    while i < |slice|
      invariant 0 <= i <= |slice|
      invariant props + Unescape(slice[i..], lastEscaped) == Unescape(slice, false)
    {
      UnescapeOne(slice, i, lastEscaped, props);
      lastEscaped := slice[i] == ESCAPE && !lastEscaped;
      if !lastEscaped {
        props := props + [slice[i]];
      }
      i := i + 1;
    }
    assert slice[i..] == [] && props + [] == props;
    ok := true;
  }

  lemma UnescapeOne(slice: seq<byte>, i: nat, lastEscaped: bool, props: seq<byte>)
    requires i < |slice|
    ensures var escapes := slice[i] == ESCAPE && !lastEscaped;
            props + Unescape(slice[i..], lastEscaped) ==
            (if escapes then props else props + [slice[i]]) + Unescape(slice[i + 1..], escapes)
  {
    assert slice[i..][0] == slice[i] && slice[i..][1..] == slice[i + 1..];
    ConcatAssociative(props, [slice[i]], Unescape(slice[i + 1..], false));
  }
}
