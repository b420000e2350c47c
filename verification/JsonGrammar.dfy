/** The text of every well-nested run of output calls, and when it is in the grammar of RFC 8259. */
module JsonGrammar {
  import opened Options
  import opened Words
  import opened Utf8
  import opened JsonText
  import opened JsonWire
  import opened JsonProtocol

  // ---------------------------------------------------------------- the grammar

  /** A key as the output calls may write it; OutputNull is the one that writes no string. */
  datatype Key = Named(name: seq<Byte>) | NullKey

  datatype Member = Member(key: Key, value: Json)

  datatype Json =
    | JNull
    | JBool(b: bool)
    | JNumber(n: I64)
    | JString(s: seq<Byte>)
    | JArray(items: seq<Json>)
    | JObject(members: seq<Member>)

  /** t is a value of section 3 of RFC 8259, without white space, whose parts are laid out as in j. */
  ghost predicate Derives(t: seq<Byte>, j: Json)
    decreases j, 1
  {
    match j
    case JNull => t == NULL
    case JBool(b) => t == if b then TRUE else FALSE
    case JNumber(_) => IsNumber(t)
    case JString(_) => IsString(t)
    case JArray(items) => exists u :: t == [LBRACKET] + u + [RBRACKET] && DerivesItems(u, items)
    case JObject(members) => exists u :: t == [LBRACE] + u + [RBRACE] && DerivesMembers(u, members)
  }

  /** Values with one comma between each two: section 5. */
  ghost predicate DerivesItems(t: seq<Byte>, items: seq<Json>)
    decreases items, 0
  {
    if items == [] then t == []
    else if |items| == 1 then Derives(t, items[0])
    else exists u, v :: t == u + [COMMA] + v && DerivesItems(u, items[..|items| - 1]) && Derives(v, items[|items| - 1])
  }

  /** Members with one comma between each two: section 4. */
  ghost predicate DerivesMembers(t: seq<Byte>, members: seq<Member>)
    decreases members, 0
  {
    if members == [] then t == []
    else if |members| == 1 then DerivesMember(t, members[0])
    else
      exists u, v :: t == u + [COMMA] + v
        && DerivesMembers(u, members[..|members| - 1]) && DerivesMember(v, members[|members| - 1])
  }

  /** A string, one colon, a value. */
  ghost predicate DerivesMember(t: seq<Byte>, m: Member)
    decreases m, 0
  {
    exists u, v :: t == u + [COLON] + v && IsString(u) && Derives(v, m.value)
  }

  // ---------------------------------------------------------------- one text of each value

  function Render(j: Json): seq<Byte>
    decreases j, 1
  {
    match j
    case JNull => NULL
    case JBool(b) => if b then TRUE else FALSE
    case JNumber(n) => FormatInt(n)
    case JString(s) => Quote(s)
    case JArray(items) => [LBRACKET] + RenderItems(items) + [RBRACKET]
    case JObject(members) => [LBRACE] + RenderMembers(members) + [RBRACE]
  }

  /** The comma that a value, or a member, needs after those before it. */
  function Comma<T>(before: seq<T>): seq<Byte> { if |before| == 0 then [] else [COMMA] }

  function RenderItems(items: seq<Json>): seq<Byte>
    decreases items, 0
  {
    if items == [] then []
    else
      var before := items[..|items| - 1];
      RenderItems(before) + Comma(before) + Render(items[|items| - 1])
  }

  function RenderMembers(members: seq<Member>): seq<Byte>
    decreases members, 0
  {
    if members == [] then []
    else
      var before := members[..|members| - 1];
      RenderMembers(before) + Comma(before) + RenderMember(members[|members| - 1])
  }

  function RenderMember(m: Member): seq<Byte>
    decreases m, 0
  {
    KeyText(m.key) + [COLON] + Render(m.value)
  }

  function KeyText(k: Key): seq<Byte> {
    match k
    case Named(name) => Quote(name)
    case NullKey => NULL
  }

  // ---------------------------------------------------------------- null keys

  predicate NoNullKeys(j: Json)
    decreases j, 1
  {
    match j
    case JArray(items) => NoNullKeysInItems(items)
    case JObject(members) => NoNullKeysInMembers(members)
    case _ => true
  }

  predicate NoNullKeysInItems(items: seq<Json>)
    decreases items, 0
  {
    items == [] || (NoNullKeysInItems(items[..|items| - 1]) && NoNullKeys(items[|items| - 1]))
  }

  predicate NoNullKeysInMembers(members: seq<Member>)
    decreases members, 0
  {
    members == [] || (NoNullKeysInMembers(members[..|members| - 1]) && NoNullKeyInMember(members[|members| - 1]))
  }

  predicate NoNullKeyInMember(m: Member)
    decreases m, 0
  {
    m.key.Named? && NoNullKeys(m.value)
  }

  lemma {:induction false} RenderDerives(j: Json)
    requires NoNullKeys(j)
    ensures Derives(Render(j), j)
    decreases j, 1
  {
    hide FormatInt, Quote, IsNumber, IsString;
    match j
    case JNumber(n) => FormatIsNumber(n);
    case JString(s) => QuoteIsString(s);
    case JArray(items) =>
      RenderItemsDerive(items);
      assert Render(j) == [LBRACKET] + RenderItems(items) + [RBRACKET];
    case JObject(members) =>
      RenderMembersDerive(members);
      assert Render(j) == [LBRACE] + RenderMembers(members) + [RBRACE];
    case _ =>
  }

  lemma {:induction false} RenderItemsDerive(items: seq<Json>)
    requires NoNullKeysInItems(items)
    ensures DerivesItems(RenderItems(items), items)
    decreases items, 0
  {
    if items != [] {
      hide Render, Derives, NoNullKeys;
      var before, last := items[..|items| - 1], items[|items| - 1];
      RenderItemsDerive(before);
      RenderDerives(last);
      if |items| == 1 {
        assert RenderItems(items) == [] + [] + Render(last) == Render(last);
      } else {
        assert RenderItems(items) == RenderItems(before) + [COMMA] + Render(last);
      }
    }
  }

  lemma {:induction false} RenderMembersDerive(members: seq<Member>)
    requires NoNullKeysInMembers(members)
    ensures DerivesMembers(RenderMembers(members), members)
    decreases members, 0
  {
    if members != [] {
      hide RenderMember, DerivesMember, NoNullKeyInMember;
      var before, last := members[..|members| - 1], members[|members| - 1];
      RenderMembersDerive(before);
      RenderMemberDerives(last);
      if |members| == 1 {
        assert RenderMembers(members) == [] + [] + RenderMember(last) == RenderMember(last);
      } else {
        assert RenderMembers(members) == RenderMembers(before) + [COMMA] + RenderMember(last);
      }
    }
  }

  lemma {:induction false} RenderMemberDerives(m: Member)
    requires NoNullKeyInMember(m)
    ensures DerivesMember(RenderMember(m), m)
    decreases m, 0
  {
    hide Quote, IsString, Render, Derives;
    QuoteIsString(m.key.name);
    RenderDerives(m.value);
  }

  // ---------------------------------------------------------------- output calls

  datatype Call =
    | OutputNull
    | OutputBool(b: bool)
    | OutputI64(n: I64)
    | OutputString(s: seq<Byte>)
    | ObjectBegin
    | ObjectEnd
    | ListBegin
    | ListEnd

  predicate IsEnd(c: Call) { c.ObjectEnd? || c.ListEnd? }

  /** What a call adds to the text, and its effect on the context stack. */
  function Emit(w: JOut, c: Call): JOut
    requires w.ctx != [] && (IsEnd(c) ==> |w.ctx| >= 2)
  {
    match c
    case OutputNull => OutScalar(w, NULL)
    case OutputBool(b) => OutScalar(w, PlainToken(w.ctx, if b then TRUE else FALSE))
    case OutputI64(n) => OutScalar(w, PlainToken(w.ctx, FormatInt(n)))
    case OutputString(s) => OutScalar(w, Quote(s))
    case ObjectBegin => OutOpen(w, LBRACE, ObjectFirst)
    case ObjectEnd => OutClose(w, RBRACE)
    case ListBegin => OutOpen(w, LBRACKET, ListFirst)
    case ListEnd => OutClose(w, RBRACKET)
  }

  method Perform(p: TJSONProtocol, c: Call)
    requires p.Valid() && (IsEnd(c) ==> |p.dumpContext| >= 2)
    modifies p`written, p`dumpContext, p`dumped
    ensures p.Valid() && p.Out() == Emit(old(p.Out()), c)
  {
    hide Quote, FormatInt, OutScalar, OutOpen, OutClose;
    match c
    case OutputNull => p.OutputNull();
    case OutputBool(b) => p.OutputBool(b);
    case OutputI64(n) => p.OutputI64(n);
    case OutputString(s) => p.OutputString(s);
    case ObjectBegin => p.OutputObjectBegin();
    case ObjectEnd => p.OutputObjectEnd();
    case ListBegin => p.OutputListBegin();
    case ListEnd => p.OutputListEnd();
  }

  // ---------------------------------------------------------------- well-nested runs

  /** A container that is still open: what it holds, and the key that awaits its value. */
  datatype Frame = InArray(items: seq<Json>) | InObject(members: seq<Member>, key: Option<Key>)

  /** The values a run of calls has put together, and the containers it has yet to close. */
  datatype Tree = Tree(done: seq<Json>, frames: seq<Frame>)

  function LastFrame(b: Tree): Frame
    requires b.frames != []
  {
    b.frames[|b.frames| - 1]
  }

  function Outer(b: Tree): Tree
    requires b.frames != []
  {
    b.(frames := b.frames[..|b.frames| - 1])
  }

  predicate KeyNext(b: Tree) { b.frames != [] && LastFrame(b).InObject? && LastFrame(b).key.None? }

  /** What a scalar names when it stands as a key. */
  function KeyName(j: Json): Option<Key> {
    match j
    case JNull => Some(NullKey)
    case JBool(b) => Some(Named(if b then TRUE else FALSE))
    case JNumber(n) => Some(Named(FormatInt(n)))
    case JString(s) => Some(Named(s))
    case _ => None
  }

  function WithFrame(b: Tree, f: Frame): Tree
    requires b.frames != []
  {
    b.(frames := b.frames[..|b.frames| - 1] + [f])
  }

  /** A complete value at the next position: an element, a key or a member's value. */
  function Put(b: Tree, j: Json): Option<Tree> {
    if b.frames == [] then Some(b.(done := b.done + [j]))
    else
      match LastFrame(b)
      case InArray(items) => Some(WithFrame(b, InArray(items + [j])))
      case InObject(members, Some(k)) => Some(WithFrame(b, InObject(members + [Member(k, j)], None)))
      case InObject(members, None) =>
        if KeyName(j).Some? then Some(WithFrame(b, InObject(members, KeyName(j)))) else None
  }

  function Opened(b: Tree, f: Frame): Option<Tree> {
    if KeyNext(b) then None else Some(b.(frames := b.frames + [f]))
  }

  /** A call that is well nested where it stands, with keys and values alternating and every key a
      scalar; None otherwise. */
  function Step(b: Tree, c: Call): Option<Tree> {
    match c
    case OutputNull => Put(b, JNull)
    case OutputBool(v) => Put(b, JBool(v))
    case OutputI64(n) => Put(b, JNumber(n))
    case OutputString(s) => Put(b, JString(s))
    case ObjectBegin => Opened(b, InObject([], None))
    case ListBegin => Opened(b, InArray([]))
    case ObjectEnd => if KeyNext(b) then Put(Outer(b), JObject(LastFrame(b).members)) else None
    case ListEnd =>
      if b.frames != [] && LastFrame(b).InArray? then Put(Outer(b), JArray(LastFrame(b).items)) else None
  }

  function Steps(b: Tree, calls: seq<Call>): Option<Tree> {
    if calls == [] then Some(b)
    else
      var before := Steps(b, calls[..|calls| - 1]);
      if before.None? then None else Step(before.value, calls[|calls| - 1])
  }

  // ---------------------------------------------------------------- the text of an unfinished run

  function DoneText(done: seq<Json>): seq<Byte> {
    if done == [] then [] else DoneText(done[..|done| - 1]) + Render(done[|done| - 1])
  }

  function FrameText(f: Frame): seq<Byte> {
    match f
    case InArray(items) => [LBRACKET] + RenderItems(items)
    case InObject(members, None) => [LBRACE] + RenderMembers(members)
    case InObject(members, Some(k)) => [LBRACE] + RenderMembers(members) + Comma(members) + KeyText(k)
  }

  /** What stands between an open container and its next part. */
  function Between(f: Frame): seq<Byte> {
    match f
    case InArray(items) => Comma(items)
    case InObject(members, None) => Comma(members)
    case InObject(_, Some(_)) => [COLON]
  }

  function NextSeparator(frames: seq<Frame>): seq<Byte> { if frames == [] then [] else Between(frames[|frames| - 1]) }

  function FramesText(frames: seq<Frame>): seq<Byte> {
    if frames == [] then []
    else
      var outer := frames[..|frames| - 1];
      FramesText(outer) + NextSeparator(outer) + FrameText(frames[|frames| - 1])
  }

  function TreeText(b: Tree): seq<Byte> { DoneText(b.done) + FramesText(b.frames) }

  function FrameCtx(f: Frame): Ctx {
    match f
    case InArray(items) => if items == [] then ListFirst else InList
    case InObject(members, None) => if members == [] then ObjectFirst else NextKey
    case InObject(_, Some(_)) => NextValue
  }

  function FramesCtx(frames: seq<Frame>): (c: seq<Ctx>)
    ensures |c| == |frames|
  {
    if frames == [] then [] else FramesCtx(frames[..|frames| - 1]) + [FrameCtx(frames[|frames| - 1])]
  }

  /** The text and the context stack are those of the tree so far. */
  predicate Agrees(base: seq<Ctx>, start: seq<Byte>, w: JOut, b: Tree) {
    && base != [] && Top(base).Toplevel?
    && w.text == start + TreeText(b) && w.ctx == base + FramesCtx(b.frames)
  }

  lemma SeparatorAgrees(base: seq<Ctx>, start: seq<Byte>, w: JOut, b: Tree)
    requires Agrees(base, start, w, b)
    ensures w.ctx != [] && (b.frames != [] ==> |w.ctx| >= 2)
    ensures Separator(Top(w.ctx)) == NextSeparator(b.frames) && AtKey(w.ctx) == KeyNext(b)
  {
    hide DoneText, FramesText;
    if b.frames != [] { assert Top(w.ctx) == FrameCtx(LastFrame(b)); }
  }

  lemma FramesStep(frames: seq<Frame>, f: Frame)
    ensures FramesText(frames + [f]) == FramesText(frames) + NextSeparator(frames) + FrameText(f)
    ensures FramesCtx(frames + [f]) == FramesCtx(frames) + [FrameCtx(f)]
  {
    hide FrameText, FrameCtx, NextSeparator;
    assert (frames + [f])[..|frames|] == frames;
  }

  lemma RenderStep(items: seq<Json>, j: Json, members: seq<Member>, m: Member)
    ensures RenderItems(items + [j]) == RenderItems(items) + Comma(items) + Render(j)
    ensures RenderMembers(members + [m]) == RenderMembers(members) + Comma(members) + RenderMember(m)
  {
    hide Render, RenderMember;
    assert (items + [j])[..|items|] == items;
    assert (members + [m])[..|members|] == members;
  }

  /** An open container after one more part. */
  predicate Extends(f: Frame, g: Frame, j: Json) {
    match f
    case InArray(items) => g == InArray(items + [j])
    case InObject(members, Some(k)) => g == InObject(members + [Member(k, j)], None)
    case InObject(members, None) => KeyName(j).Some? && g == InObject(members, KeyName(j))
  }

  lemma MemberText(m: Member)
    ensures RenderMember(m) == KeyText(m.key) + [COLON] + Render(m.value)
  {
  }

  lemma FrameTextAfter(f: Frame, g: Frame, j: Json)
    requires Extends(f, g, j)
    ensures FrameText(g) == FrameText(f) + Between(f)
         + (if f.InObject? && f.key.None? then KeyText(KeyName(j).value) else Render(j))
    ensures FrameCtx(g) == AfterValue(FrameCtx(f))
  {
    hide Render, RenderItems, RenderMembers, RenderMember, Quote, KeyText, FormatInt, KeyName, Comma;
    if f.InArray? {
      RenderStep(f.items, j, [], Member(NullKey, j));
      Reassociate([LBRACKET], RenderItems(f.items), Comma(f.items), Render(j));
    } else if f.key.Some? {
      var m := Member(f.key.value, j);
      RenderStep([], j, f.members, m);
      var a, c, q, r := RenderMembers(f.members), Comma(f.members), KeyText(m.key), Render(j);
      MemberText(m);
      Reassociate([LBRACE], a, c, RenderMember(m));
      Reassociate([LBRACE] + a + c, q, [COLON], r);
    }
  }

  /** Putting a value in place adds its separator and its text, and moves the context on. */
  lemma PutText(base: seq<Ctx>, b: Tree, j: Json)
    requires base != [] && Top(base).Toplevel? && Put(b, j).Some?
    ensures TreeText(Put(b, j).value)
         == TreeText(b) + NextSeparator(b.frames) + (if KeyNext(b) then KeyText(KeyName(j).value) else Render(j))
    ensures base + FramesCtx(Put(b, j).value.frames) == Post(base + FramesCtx(b.frames))
  {
    if b.frames == [] {
      hide Render, Quote, KeyText, FormatInt, KeyName;
      assert (b.done + [j])[..|b.done|] == b.done;
      assert base + [] == base && Pop(base) + [Top(base)] == base;
      assert DoneText(b.done) + Render(j) + [] == DoneText(b.done) + [] + [] + Render(j);
    } else {
      PutInFrame(base, b, j);
    }
  }

  lemma PutInFrame(base: seq<Ctx>, b: Tree, j: Json)
    requires b.frames != [] && Put(b, j).Some?
    ensures TreeText(Put(b, j).value)
         == TreeText(b) + NextSeparator(b.frames) + (if KeyNext(b) then KeyText(KeyName(j).value) else Render(j))
    ensures base + FramesCtx(Put(b, j).value.frames) == Post(base + FramesCtx(b.frames))
  {
    hide Render, Quote, KeyText, KeyName, FramesText, FrameText, FramesCtx, FrameCtx, DoneText, Post, Between;
    var outer, f, g := Outer(b).frames, LastFrame(b), LastFrame(Put(b, j).value);
    assert Extends(f, g, j);
    assert Put(b, j).value.frames == outer + [g] && b.frames == outer + [f];
    FrameTextAfter(f, g, j);
    NextFrameCtx(base, outer, f, g);
    var token := if KeyNext(b) then KeyText(KeyName(j).value) else Render(j);
    NextFrameText(DoneText(b.done), outer, f, g, token);
  }

  lemma NextFrameCtx(base: seq<Ctx>, outer: seq<Frame>, f: Frame, g: Frame)
    requires FrameCtx(g) == AfterValue(FrameCtx(f))
    ensures base + FramesCtx(outer + [f]) != []
    ensures base + FramesCtx(outer + [g]) == Post(base + FramesCtx(outer + [f]))
  {
    hide FramesCtx, FrameCtx, FramesText, FrameText, Post;
    FramesStep(outer, f);
    FramesStep(outer, g);
    PostOf(base + FramesCtx(outer), FrameCtx(f));
    assert base + FramesCtx(outer + [f]) == base + FramesCtx(outer) + [FrameCtx(f)];
    assert base + FramesCtx(outer + [g]) == base + FramesCtx(outer) + [FrameCtx(g)];
  }

  lemma NextFrameText(done: seq<Byte>, outer: seq<Frame>, f: Frame, g: Frame, token: seq<Byte>)
    requires FrameText(g) == FrameText(f) + Between(f) + token
    ensures done + FramesText(outer + [g]) == done + FramesText(outer + [f]) + Between(f) + token
  {
    hide FramesText, FrameText, FramesCtx, FrameCtx, Between, NextSeparator;
    FramesStep(outer, f);
    FramesStep(outer, g);
    Reassociate(FramesText(outer) + NextSeparator(outer), FrameText(f), Between(f), token);
    Reassociate(done, FramesText(outer + [f]), Between(f), token);
  }

  lemma ScalarAgrees(base: seq<Ctx>, start: seq<Byte>, w: JOut, b: Tree, j: Json, token: seq<Byte>)
    requires Agrees(base, start, w, b) && Put(b, j).Some?
    requires token == if KeyNext(b) then KeyText(KeyName(j).value) else Render(j)
    ensures w.ctx != [] && Agrees(base, start, OutScalar(w, token), Put(b, j).value)
  {
    hide Render, Quote, KeyText, KeyName, TreeText, FramesCtx, Put;
    SeparatorAgrees(base, start, w, b);
    PutText(base, b, j);
    Reassociate(start, TreeText(b), NextSeparator(b.frames), token);
  }

  lemma OpenAgrees(base: seq<Ctx>, start: seq<Byte>, w: JOut, b: Tree, f: Frame)
    requires Agrees(base, start, w, b) && !KeyNext(b) && (f == InArray([]) || f == InObject([], None))
    ensures w.ctx != []
    ensures Agrees(base, start, if f.InArray? then OutOpen(w, LBRACKET, ListFirst) else OutOpen(w, LBRACE, ObjectFirst),
      b.(frames := b.frames + [f]))
  {
    hide TreeText, FrameText, FramesCtx, FrameCtx, Separator, NextSeparator, KeyNext, AtKey;
    SeparatorAgrees(base, start, w, b);
    EmptyFrame(f);
    OpenText(start, b, f);
    FramesStep(b.frames, f);
    assert base + (FramesCtx(b.frames) + [FrameCtx(f)]) == base + FramesCtx(b.frames) + [FrameCtx(f)];
  }

  lemma EmptyFrame(f: Frame)
    requires f == InArray([]) || f == InObject([], None)
    ensures FrameText(f) == if f.InArray? then [LBRACKET] else [LBRACE]
    ensures FrameCtx(f) == if f.InArray? then ListFirst else ObjectFirst
  {
  }

  lemma OpenText(start: seq<Byte>, b: Tree, f: Frame)
    ensures start + TreeText(b.(frames := b.frames + [f]))
         == start + TreeText(b) + NextSeparator(b.frames) + FrameText(f)
  {
    hide DoneText, FramesText, FrameText, FramesCtx, FrameCtx, NextSeparator;
    FramesStep(b.frames, f);
    Reassociate(DoneText(b.done), FramesText(b.frames), NextSeparator(b.frames), FrameText(f));
    Reassociate(start, TreeText(b), NextSeparator(b.frames), FrameText(f));
  }

  lemma CloseText(b: Tree, closed: seq<Byte>, bracket: Byte)
    requires b.frames != [] && closed == FrameText(LastFrame(b)) + [bracket]
    ensures TreeText(b) + [bracket] == TreeText(Outer(b)) + NextSeparator(Outer(b).frames) + closed
  {
    var o, f := Outer(b), LastFrame(b);
    assert b.frames == o.frames + [f];
    FramesStep(o.frames, f);
    hide DoneText, FramesText, FrameText, NextSeparator;
    Reassociate(DoneText(b.done), FramesText(o.frames), NextSeparator(o.frames), FrameText(f));
    Reassociate(TreeText(o), NextSeparator(o.frames), FrameText(f), [bracket]);
    assert NextSeparator(o.frames) + FrameText(f) + [bracket] == NextSeparator(o.frames) + closed;
  }

  lemma CloseAgrees(base: seq<Ctx>, start: seq<Byte>, w: JOut, b: Tree, j: Json, bracket: Byte)
    requires Agrees(base, start, w, b) && b.frames != [] && !KeyNext(Outer(b))
    requires Render(j) == FrameText(LastFrame(b)) + [bracket] && Put(Outer(b), j).Some?
    ensures |w.ctx| >= 2 && Agrees(base, start, OutClose(w, bracket), Put(Outer(b), j).value)
  {
    hide Render, Put, TreeText, FramesCtx, FrameText, NextSeparator, KeyNext, Outer, LastFrame, Pop, Post;
    CloseCtx(base, b);
    CloseText(b, Render(j), bracket);
    PutText(base, Outer(b), j);
    assert start + TreeText(b) + [bracket] == start + (TreeText(b) + [bracket]);
  }

  lemma CloseCtx(base: seq<Ctx>, b: Tree)
    requires base != [] && b.frames != []
    ensures |base + FramesCtx(b.frames)| >= 2
    ensures Pop(base + FramesCtx(b.frames)) == base + FramesCtx(Outer(b).frames)
  {
    hide FrameCtx;
  }

  /** No container is ever open at a key. */
  predicate KeysAreScalars(frames: seq<Frame>) {
    forall i :: 0 <= i < |frames| - 1 ==> !(frames[i].InObject? && frames[i].key.None?)
  }

  lemma StepKeys(b: Tree, c: Call)
    requires KeysAreScalars(b.frames) && Step(b, c).Some?
    ensures KeysAreScalars(Step(b, c).value.frames)
    ensures IsEnd(c) ==> b.frames != [] && !KeyNext(Outer(b))
  {
    hide FormatInt;
  }

  lemma StepAgrees(base: seq<Ctx>, start: seq<Byte>, w: JOut, b: Tree, c: Call)
    requires Agrees(base, start, w, b) && KeysAreScalars(b.frames) && Step(b, c).Some?
    ensures w.ctx != [] && (IsEnd(c) ==> |w.ctx| >= 2)
    ensures Agrees(base, start, Emit(w, c), Step(b, c).value) && KeysAreScalars(Step(b, c).value.frames)
  {
    hide Quote, FormatInt, Agrees, OutScalar, OutOpen, OutClose, KeysAreScalars;
    SeparatorAgrees(base, start, w, b);
    StepKeys(b, c);
    match c
    case OutputNull => ScalarAgrees(base, start, w, b, JNull, NULL);
    case OutputBool(v) => ScalarAgrees(base, start, w, b, JBool(v), PlainToken(w.ctx, if v then TRUE else FALSE));
    case OutputI64(n) => ScalarAgrees(base, start, w, b, JNumber(n), PlainToken(w.ctx, FormatInt(n)));
    case OutputString(s) => ScalarAgrees(base, start, w, b, JString(s), Quote(s));
    case ObjectBegin => OpenAgrees(base, start, w, b, InObject([], None));
    case ListBegin => OpenAgrees(base, start, w, b, InArray([]));
    case ObjectEnd => CloseAgrees(base, start, w, b, JObject(LastFrame(b).members), RBRACE);
    case ListEnd => CloseAgrees(base, start, w, b, JArray(LastFrame(b).items), RBRACKET);
  }

  // ---------------------------------------------------------------- every run

  /** The writer along a run of calls. */
  predicate IsRun(ws: seq<JOut>, calls: seq<Call>) {
    && |ws| == |calls| + 1
    && forall i :: 0 <= i < |calls| ==>
        ws[i].ctx != [] && (IsEnd(calls[i]) ==> |ws[i].ctx| >= 2) && ws[i + 1] == Emit(ws[i], calls[i])
  }

  const EMPTY := Tree([], [])

  lemma {:induction false} RunAgrees(ws: seq<JOut>, calls: seq<Call>)
    requires IsRun(ws, calls) && ws[0].ctx != [] && Top(ws[0].ctx).Toplevel?
    requires Steps(EMPTY, calls).Some?
    ensures Agrees(ws[0].ctx, ws[0].text, ws[|calls|], Steps(EMPTY, calls).value)
    ensures KeysAreScalars(Steps(EMPTY, calls).value.frames)
    decreases |calls|
  {
    hide Emit, Step;
    var n := |calls|;
    if n == 0 {
      assert ws[0].text + TreeText(EMPTY) == ws[0].text && ws[0].ctx + [] == ws[0].ctx;
    } else {
      hide Agrees;
      RunAgrees(ws[..n], calls[..n - 1]);
      assert ws[..n][n - 1] == ws[n - 1];
      StepAgrees(ws[0].ctx, ws[0].text, ws[n - 1], Steps(EMPTY, calls[..n - 1]).value, calls[n - 1]);
    }
  }

  lemma RunLength(ws: seq<JOut>, calls: seq<Call>)
    requires IsRun(ws, calls)
    ensures |ws| == |calls| + 1
  {
  }

  ghost predicate IsJson(t: seq<Byte>) { exists j :: Derives(t, j) }

  /** Well-formed output: a well-nested run that makes one value and closes every container has
      written that value's text and is back in the context it began in; and the text is in the
      grammar if and only if OutputNull was never called where a key belongs. */
  lemma RunIsJson(ws: seq<JOut>, calls: seq<Call>)
    requires IsRun(ws, calls) && ws[0].ctx != [] && Top(ws[0].ctx).Toplevel?
    requires Steps(EMPTY, calls).Some?
    requires Steps(EMPTY, calls).value.frames == [] && |Steps(EMPTY, calls).value.done| == 1
    ensures
      var j := Steps(EMPTY, calls).value.done[0];
      && ws[|calls|].text == ws[0].text + Render(j) && ws[|calls|].ctx == ws[0].ctx
      && (!NullAtKey(calls) ==> Derives(Render(j), j))
      && (IsJson(Render(j)) <==> !NullAtKey(calls))
  {
    hide Render, Derives, Steps, IsRun, NullAtKey, NoNullKeys;
    RunLength(ws, calls);
    RunAgrees(ws, calls);
    var b := Steps(EMPTY, calls).value;
    var j := b.done[0];
    NullAtKeyIff(calls);
    assert NoNullKeys(j) <==> !NullAtKey(calls) by {
      assert b.done[..0] == [];
      assert NoNullKeysInItems(b.done) <==> NoNullKeysInItems(b.done[..0]) && NoNullKeys(j);
    }
    IsJsonIff(j);
    assert b.done[..0] == [];
    assert DoneText(b.done) == DoneText(b.done[..0]) + Render(j);
    assert ws[0].ctx + [] == ws[0].ctx;
  }

  // ---------------------------------------------------------------- a colon after no string

  /** A scan of a text for colons: outside strings, one may only follow a closing quote. */
  datatype Scan = Outside(afterQuote: bool) | Inside | Escaping | Stray

  function ScanByte(s: Scan, c: Byte): Scan {
    match s
    case Outside(q) =>
      if c == QUOTE then Inside
      else if c == COLON && !q then Stray
      else Outside(false)
    case Inside => if c == QUOTE then Outside(true) else if c == BACKSLASH then Escaping else Inside
    case Escaping => Inside
    case Stray => Stray
  }

  function ScanAll(s: Scan, t: seq<Byte>): Scan
    decreases |t|
  {
    if t == [] then s else ScanAll(ScanByte(s, t[0]), t[1..])
  }

  lemma {:induction false} ScanConcat(s: Scan, a: seq<Byte>, b: seq<Byte>)
    ensures ScanAll(s, a + b) == ScanAll(ScanAll(s, a), b)
    decreases |a|
  {
    if a == [] {
      assert a + b == b;
    } else {
      ScanConcat(ScanByte(s, a[0]), a[1..], b);
      assert (a + b)[1..] == a[1..] + b;
    }
  }

  lemma ScanThree(s: Scan, a: seq<Byte>, b: seq<Byte>, c: seq<Byte>)
    ensures ScanAll(s, a + b + c) == ScanAll(ScanAll(ScanAll(s, a), b), c)
  {
    hide ScanAll;
    ScanConcat(s, a + b, c);
    ScanConcat(s, a, b);
  }

  lemma {:induction false} ScanStray(t: seq<Byte>)
    ensures ScanAll(Stray, t) == Stray
  {
    if t != [] { ScanStray(t[1..]); }
  }

  lemma ScanOne(s: Scan, c: Byte)
    ensures ScanAll(s, [c]) == ScanByte(s, c)
  {
    assert [c][1..] == [];
  }

  /** Bytes that are neither quotes nor colons, outside a string. */
  lemma {:induction false} ScanPlain(t: seq<Byte>, q: bool)
    requires forall i :: 0 <= i < |t| ==> t[i] != QUOTE && t[i] != COLON
    ensures ScanAll(Outside(q), t) == Outside(q && t == [])
  {
    if t != [] { ScanPlain(t[1..], false); }
  }

  /** Bytes that are neither quotes nor backslashes, inside a string. */
  lemma {:induction false} ScanInside(t: seq<Byte>)
    requires forall i :: 0 <= i < |t| ==> t[i] != QUOTE && t[i] != BACKSLASH
    ensures ScanAll(Inside, t) == Inside
  {
    if t != [] { ScanInside(t[1..]); }
  }

  lemma {:induction false} ScanChars(t: seq<Byte>)
    requires StringChars(t)
    ensures ScanAll(Inside, t) == Inside
    decreases |t|
  {
    hide DecodeRune, Broken, ScanAll, HexValue;
    if t != [] {
      var n := UnitSize(t);
      UnitScans(t);
      ScanChars(t[n..]);
      ScanConcat(Inside, t[..n], t[n..]);
      assert t == t[..n] + t[n..];
    } else {
      ScanInside(t);
    }
  }

  /** The bytes of the first character of a string's text. */
  function UnitSize(t: seq<Byte>): nat
    requires t != []
  {
    if t[0] != BACKSLASH then DecodeRune(t).size
    else if |t| >= 2 && SimpleEscape(t[1]).Some? then 2
    else 6
  }

  lemma UnitScans(t: seq<Byte>)
    requires StringChars(t) && t != []
    ensures 0 < UnitSize(t) <= |t| && StringChars(t[UnitSize(t)..])
    ensures ScanAll(Inside, t[..UnitSize(t)]) == Inside
  {
    hide UnitSize, ScanAll, StringChars;
    if t[0] == BACKSLASH {
      EscapeTail(t);
      EscapeScans(t[..UnitSize(t)]);
    } else {
      RawUnit(t);
      ScanInside(t[..UnitSize(t)]);
    }
  }

  lemma EscapeScans(u: seq<Byte>)
    requires |u| >= 2 && u[0] == BACKSLASH
    requires forall i :: 2 <= i < |u| ==> u[i] != QUOTE && u[i] != BACKSLASH
    ensures ScanAll(Inside, u) == Inside
  {
    hide ScanAll;
    var tail := u[2..];
    assert u == [u[0]] + [u[1]] + tail;
    ScanThree(Inside, [u[0]], [u[1]], tail);
    ScanOne(Inside, u[0]);
    ScanOne(Escaping, u[1]);
    ScanInside(tail);
  }

  lemma EscapeTail(t: seq<Byte>)
    requires StringChars(t) && t != [] && t[0] == BACKSLASH
    ensures 2 <= UnitSize(t) <= |t| && StringChars(t[UnitSize(t)..])
    ensures forall i :: 2 <= i < UnitSize(t) ==> t[i] != QUOTE && t[i] != BACKSLASH
  {
    hide DecodeRune;
  }

  lemma RawUnit(t: seq<Byte>)
    requires StringChars(t) && t != [] && t[0] != BACKSLASH
    ensures 0 < UnitSize(t) <= |t| && StringChars(t[UnitSize(t)..])
    ensures forall i :: 0 <= i < UnitSize(t) ==> t[i] != QUOTE && t[i] != BACKSLASH
  {
    if t[0] < 0x80 { AsciiRune(t); } else { RawPlain(t); }
  }

  lemma ScanString(t: seq<Byte>, q: bool)
    requires IsString(t)
    ensures ScanAll(Outside(q), t) == Outside(true)
  {
    hide StringChars, ScanAll;
    var u := t[1..|t| - 1];
    assert t == [QUOTE] + u + [QUOTE];
    ScanThree(Outside(q), [QUOTE], u, [QUOTE]);
    ScanOne(Outside(q), QUOTE);
    ScanChars(u);
    ScanOne(Inside, QUOTE);
  }

  lemma ScanNumber(t: seq<Byte>, q: bool)
    requires IsNumber(t)
    ensures ScanAll(Outside(q), t) == Outside(false)
  {
    hide ScanAll;
    forall i | 0 <= i < |t|
      ensures t[i] != QUOTE && t[i] != COLON
    {
      assert t[0] == MINUS || IsDigit(t[0]);
      if t[0] == MINUS && i > 0 { assert IsDigit(t[1..][i - 1]); }
    }
    ScanPlain(t, q);
  }

  lemma ScanLiterals(q: bool)
    ensures ScanAll(Outside(q), NULL) == ScanAll(Outside(q), TRUE) == ScanAll(Outside(q), FALSE) == Outside(false)
  {
    hide ScanAll;
    ScanPlain(NULL, q);
    ScanPlain(TRUE, q);
    ScanPlain(FALSE, q);
  }

  lemma ScanBracketed(open: Byte, u: seq<Byte>, close: Byte, q: bool)
    requires open == LBRACE || open == LBRACKET
    requires close == RBRACE || close == RBRACKET
    ensures ScanAll(Outside(q), [open] + u + [close]) == ScanAll(ScanAll(Outside(false), u), [close])
  {
    hide ScanAll;
    ScanThree(Outside(q), [open], u, [close]);
    ScanOne(Outside(q), open);
  }

  /** A text of the grammar has no colon astray. */
  lemma {:induction false} DerivesScans(t: seq<Byte>, j: Json, q: bool)
    requires Derives(t, j)
    ensures ScanAll(Outside(q), t).Outside?
    decreases j, 1
  {
    hide ScanAll, IsNumber, IsString;
    match j
    case JNull => ScanLiterals(q);
    case JBool(_) => ScanLiterals(q);
    case JNumber(_) => ScanNumber(t, q);
    case JString(_) => ScanString(t, q);
    case JArray(items) =>
      var u :| t == [LBRACKET] + u + [RBRACKET] && DerivesItems(u, items);
      ScanBracketed(LBRACKET, u, RBRACKET, q);
      DerivesItemsScans(u, items);
      ScanOne(ScanAll(Outside(false), u), RBRACKET);
    case JObject(members) =>
      var u :| t == [LBRACE] + u + [RBRACE] && DerivesMembers(u, members);
      ScanBracketed(LBRACE, u, RBRACE, q);
      DerivesMembersScans(u, members);
      ScanOne(ScanAll(Outside(false), u), RBRACE);
  }

  lemma {:induction false} DerivesItemsScans(t: seq<Byte>, items: seq<Json>)
    requires DerivesItems(t, items)
    ensures ScanAll(Outside(false), t).Outside?
    decreases items, 0
  {
    hide ScanAll, Derives;
    if items == [] {
      ScanPlain(t, false);
    } else if |items| == 1 {
      DerivesScans(t, items[0], false);
    } else {
      var before, last := items[..|items| - 1], items[|items| - 1];
      var u, v :| t == u + [COMMA] + v && DerivesItems(u, before) && Derives(v, last);
      ScanThree(Outside(false), u, [COMMA], v);
      DerivesItemsScans(u, before);
      ScanOne(ScanAll(Outside(false), u), COMMA);
      DerivesScans(v, last, false);
    }
  }

  lemma {:induction false} DerivesMembersScans(t: seq<Byte>, members: seq<Member>)
    requires DerivesMembers(t, members)
    ensures ScanAll(Outside(false), t).Outside?
    decreases members, 0
  {
    hide ScanAll, DerivesMember;
    if members == [] {
      ScanPlain(t, false);
    } else if |members| == 1 {
      DerivesMemberScans(t, members[0]);
    } else {
      var before, last := members[..|members| - 1], members[|members| - 1];
      var u, v :| t == u + [COMMA] + v && DerivesMembers(u, before) && DerivesMember(v, last);
      ScanThree(Outside(false), u, [COMMA], v);
      DerivesMembersScans(u, before);
      ScanOne(ScanAll(Outside(false), u), COMMA);
      DerivesMemberScans(v, last);
    }
  }

  lemma {:induction false} DerivesMemberScans(t: seq<Byte>, m: Member)
    requires DerivesMember(t, m)
    ensures ScanAll(Outside(false), t).Outside?
    decreases m, 0
  {
    hide ScanAll, Derives, IsString;
    var u, v :| t == u + [COLON] + v && IsString(u) && Derives(v, m.value);
    ScanThree(Outside(false), u, [COLON], v);
    ScanString(u, false);
    ScanOne(Outside(true), COLON);
    DerivesScans(v, m.value, false);
  }

  /** The text of a value with a null key has one. */
  lemma {:induction false} NullKeyScans(j: Json, q: bool)
    requires !NoNullKeys(j)
    ensures ScanAll(Outside(q), Render(j)) == Stray
    decreases j, 1
  {
    hide ScanAll, RenderItems, RenderMembers, NoNullKeysInItems, NoNullKeysInMembers;
    if j.JArray? {
      ScanBracketed(LBRACKET, RenderItems(j.items), RBRACKET, q);
      NullKeyItemsScans(j.items);
      ScanStray([RBRACKET]);
    } else {
      ScanBracketed(LBRACE, RenderMembers(j.members), RBRACE, q);
      NullKeyMembersScans(j.members);
      ScanStray([RBRACE]);
    }
  }

  lemma ScanNextItem(before: seq<Byte>, comma: seq<Byte>, last: seq<Byte>)
    requires comma == [] || comma == [COMMA]
    requires before == [] || ScanAll(Outside(false), before).Outside?
    ensures exists q :: ScanAll(Outside(false), before + comma + last) == ScanAll(Outside(q), last)
  {
    hide ScanAll;
    ScanThree(Outside(false), before, comma, last);
    ScanPlain([], false);
    var s := ScanAll(Outside(false), before);
    assert s.Outside?;
    ScanPlain(comma, s.afterQuote);
  }

  lemma {:induction false} NullKeyItemsScans(items: seq<Json>)
    requires !NoNullKeysInItems(items)
    ensures ScanAll(Outside(false), RenderItems(items)) == Stray
    decreases items, 0
  {
    hide ScanAll, Render, NoNullKeys, DerivesItems;
    var before, last := items[..|items| - 1], items[|items| - 1];
    if NoNullKeysInItems(before) {
      RenderItemsDerive(before);
      DerivesItemsScans(RenderItems(before), before);
      ScanNextItem(RenderItems(before), Comma(before), Render(last));
      var q :| ScanAll(Outside(false), RenderItems(items)) == ScanAll(Outside(q), Render(last));
      NullKeyScans(last, q);
    } else {
      NullKeyItemsScans(before);
      ScanThree(Outside(false), RenderItems(before), Comma(before), Render(last));
      ScanStray(Comma(before));
      ScanStray(Render(last));
    }
  }

  lemma {:induction false} NullKeyMembersScans(members: seq<Member>)
    requires !NoNullKeysInMembers(members)
    ensures ScanAll(Outside(false), RenderMembers(members)) == Stray
    decreases members, 0
  {
    hide ScanAll, RenderMember, NoNullKeyInMember, DerivesMembers;
    var before, last := members[..|members| - 1], members[|members| - 1];
    if NoNullKeysInMembers(before) {
      RenderMembersDerive(before);
      DerivesMembersScans(RenderMembers(before), before);
      ScanNextItem(RenderMembers(before), Comma(before), RenderMember(last));
      var q :| ScanAll(Outside(false), RenderMembers(members)) == ScanAll(Outside(q), RenderMember(last));
      NullKeyMemberScans(last, q);
    } else {
      NullKeyMembersScans(before);
      ScanThree(Outside(false), RenderMembers(before), Comma(before), RenderMember(last));
      ScanStray(Comma(before));
      ScanStray(RenderMember(last));
    }
  }

  lemma {:induction false} NullKeyMemberScans(m: Member, q: bool)
    requires !NoNullKeyInMember(m)
    ensures ScanAll(Outside(q), RenderMember(m)) == Stray
    decreases m, 0
  {
    hide ScanAll, Render, NoNullKeys, Quote;
    ScanThree(Outside(q), KeyText(m.key), [COLON], Render(m.value));
    if m.key.NullKey? {
      ScanLiterals(q);
      ScanOne(Outside(false), COLON);
      ScanStray(Render(m.value));
    } else {
      QuoteIsString(m.key.name);
      ScanString(Quote(m.key.name), q);
      ScanOne(Outside(true), COLON);
      NullKeyScans(m.value, false);
    }
  }

  /** The text of a value is in the grammar if and only if no key in it is null. */
  lemma IsJsonIff(j: Json)
    ensures IsJson(Render(j)) <==> NoNullKeys(j)
    ensures NoNullKeys(j) ==> Derives(Render(j), j)
  {
    hide Render, Derives, NoNullKeys, ScanAll;
    if NoNullKeys(j) {
      RenderDerives(j);
    } else {
      NullKeyScans(j, false);
      forall k
        ensures !Derives(Render(j), k)
      {
        if Derives(Render(j), k) { DerivesScans(Render(j), k, false); }
      }
    }
  }

  // ---------------------------------------------------------------- null keys along a run

  /** OutputNull is called where a key belongs. */
  predicate NullAtKey(calls: seq<Call>) {
    if calls == [] then false
    else
      var front, last := calls[..|calls| - 1], calls[|calls| - 1];
      || NullAtKey(front)
      || (last.OutputNull? && Steps(EMPTY, front).Some? && KeyNext(Steps(EMPTY, front).value))
  }

  predicate NoNullKeyInFrame(f: Frame) {
    match f
    case InArray(items) => NoNullKeysInItems(items)
    case InObject(members, key) => NoNullKeysInMembers(members) && key != Some(NullKey)
  }

  predicate NoNullKeysInFrames(frames: seq<Frame>) {
    frames == [] || (NoNullKeysInFrames(frames[..|frames| - 1]) && NoNullKeyInFrame(frames[|frames| - 1]))
  }

  predicate NoNullKeysInTree(b: Tree) { NoNullKeysInItems(b.done) && NoNullKeysInFrames(b.frames) }

  lemma ItemsAppend(items: seq<Json>, j: Json, members: seq<Member>, m: Member, frames: seq<Frame>, f: Frame)
    ensures NoNullKeysInItems(items + [j]) <==> NoNullKeysInItems(items) && NoNullKeys(j)
    ensures NoNullKeysInMembers(members + [m]) <==> NoNullKeysInMembers(members) && NoNullKeyInMember(m)
    ensures NoNullKeysInFrames(frames + [f]) <==> NoNullKeysInFrames(frames) && NoNullKeyInFrame(f)
  {
    hide NoNullKeys, NoNullKeyInMember, NoNullKeyInFrame;
    assert (items + [j])[..|items|] == items;
    assert (members + [m])[..|members|] == members;
    assert (frames + [f])[..|frames|] == frames;
  }

  lemma PutNullKeys(b: Tree, j: Json)
    requires Put(b, j).Some?
    ensures NoNullKeysInTree(Put(b, j).value)
        <==> NoNullKeysInTree(b) && NoNullKeys(j) && !(KeyNext(b) && j.JNull?)
  {
    hide NoNullKeysInItems, NoNullKeysInMembers, NoNullKeysInFrames;
    var m := Member(NullKey, j);
    if b.frames == [] {
      ItemsAppend(b.done, j, [], m, [], InArray([]));
    } else {
      var outer, f, g := Outer(b).frames, LastFrame(b), LastFrame(Put(b, j).value);
      assert b.frames == outer + [f] && Put(b, j).value.frames == outer + [g];
      ItemsAppend([], j, [], m, outer, f);
      ItemsAppend([], j, [], m, outer, g);
      FrameNullKeys(f, g, j);
    }
  }

  lemma FrameNullKeys(f: Frame, g: Frame, j: Json)
    requires Extends(f, g, j)
    ensures NoNullKeyInFrame(g)
        <==> NoNullKeyInFrame(f) && NoNullKeys(j) && !(f.InObject? && f.key.None? && j.JNull?)
  {
    hide NoNullKeysInItems, NoNullKeysInMembers, NoNullKeysInFrames;
    if f.InArray? {
      ItemsAppend(f.items, j, [], Member(NullKey, j), [], f);
    } else if f.key.Some? {
      ItemsAppend([], j, f.members, Member(f.key.value, j), [], f);
    }
  }

  lemma StepNullKeys(b: Tree, c: Call)
    requires Step(b, c).Some?
    ensures NoNullKeysInTree(Step(b, c).value) <==> NoNullKeysInTree(b) && !(c.OutputNull? && KeyNext(b))
  {
    hide NoNullKeysInItems, NoNullKeysInMembers, NoNullKeysInFrames, Put;
    match c
    case OutputNull => PutNullKeys(b, JNull);
    case OutputBool(v) => PutNullKeys(b, JBool(v));
    case OutputI64(n) => PutNullKeys(b, JNumber(n));
    case OutputString(s) => PutNullKeys(b, JString(s));
    case ObjectBegin => OpenNullKeys(b, InObject([], None));
    case ListBegin => OpenNullKeys(b, InArray([]));
    case ObjectEnd => CloseNullKeys(b, JObject(LastFrame(b).members));
    case ListEnd => CloseNullKeys(b, JArray(LastFrame(b).items));
  }

  lemma OpenNullKeys(b: Tree, f: Frame)
    requires f == InArray([]) || f == InObject([], None)
    ensures NoNullKeysInTree(b.(frames := b.frames + [f])) <==> NoNullKeysInTree(b)
  {
    ItemsAppend([], JNull, [], Member(NullKey, JNull), b.frames, f);
  }

  lemma CloseNullKeys(b: Tree, j: Json)
    requires b.frames != [] && Put(Outer(b), j).Some? && !j.JNull?
    requires NoNullKeys(j) <==> NoNullKeyInFrame(LastFrame(b))
    ensures NoNullKeysInTree(Put(Outer(b), j).value) <==> NoNullKeysInTree(b)
  {
    hide Put, NoNullKeysInItems, NoNullKeysInMembers, NoNullKeysInFrames, NoNullKeys, NoNullKeyInFrame;
    PutNullKeys(Outer(b), j);
    assert b.frames == Outer(b).frames + [LastFrame(b)];
    ItemsAppend([], j, [], Member(NullKey, j), Outer(b).frames, LastFrame(b));
  }

  lemma {:induction false} NullAtKeyIff(calls: seq<Call>)
    requires Steps(EMPTY, calls).Some?
    ensures NoNullKeysInTree(Steps(EMPTY, calls).value) <==> !NullAtKey(calls)
  {
    if calls != [] {
      hide Step, NoNullKeysInTree;
      NullAtKeyIff(calls[..|calls| - 1]);
      StepNullKeys(Steps(EMPTY, calls[..|calls| - 1]).value, calls[|calls| - 1]);
    }
  }

  // ---------------------------------------------------------------- null as a key

  /** The token of a scalar call. */
  function Token(ctx: seq<Ctx>, c: Call): seq<Byte>
    requires ctx != []
  {
    match c
    case OutputNull => NULL
    case OutputBool(b) => PlainToken(ctx, if b then TRUE else FALSE)
    case OutputI64(n) => PlainToken(ctx, FormatInt(n))
    case OutputString(s) => Quote(s)
    case _ => []
  }

  /** Where a key belongs, each scalar call but OutputNull writes a string. */
  lemma KeyIsStringIff(w: JOut, c: Call)
    requires w.ctx != [] && AtKey(w.ctx) && (c.OutputNull? || c.OutputBool? || c.OutputI64? || c.OutputString?)
    ensures Emit(w, c) == OutScalar(w, Token(w.ctx, c))
    ensures IsString(Token(w.ctx, c)) <==> !c.OutputNull?
  {
    hide Quote, FormatInt;
    match c
    case OutputNull =>
    case OutputBool(b) => QuoteIsString(if b then TRUE else FALSE);
    case OutputI64(n) => QuoteIsString(FormatInt(n));
    case OutputString(s) => QuoteIsString(s);
  }

  /** So an object whose one key is null is written as text that no value derives. */
  lemma NullKeyIsNotJson(ws: seq<JOut>, n: I64, j: Json)
    requires IsRun(ws, [ObjectBegin, OutputNull, OutputI64(n), ObjectEnd]) && ws[0] == JOut([], [Toplevel], [])
    ensures ws[4].text == [LBRACE] + NULL + [COLON] + FormatInt(n) + [RBRACE]
    ensures !Derives(ws[4].text, j)
  {
    hide FormatInt, Derives;
    var calls := [ObjectBegin, OutputNull, OutputI64(n), ObjectEnd];
    assert ws[1] == Emit(ws[0], calls[0]) && ws[2] == Emit(ws[1], calls[1]);
    assert ws[3] == Emit(ws[2], calls[2]) && ws[4] == Emit(ws[3], calls[3]);
    assert ws[1].ctx == [Toplevel, ObjectFirst] && ws[2].ctx == [Toplevel, NextValue];
    NullKeyText(n);
  }

  lemma NullKeyText(n: I64)
    ensures !IsJson([LBRACE] + NULL + [COLON] + FormatInt(n) + [RBRACE])
  {
    hide FormatInt, Derives;
    var m := Member(NullKey, JNumber(n));
    IsJsonIff(JObject([m]));
    assert [m][..0] == [];
    assert !NoNullKeysInMembers([m]);
    assert RenderMembers([m]) == [] + [] + RenderMember(m);
    assert Render(JObject([m])) == [LBRACE] + NULL + [COLON] + FormatInt(n) + [RBRACE];
  }
}
