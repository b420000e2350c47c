/** What the JSON reader refuses, and which numbers it takes that are no integers. */
module JsonErrors {
  import opened Options
  import opened Words
  import opened Utf8
  import opened JsonText
  import opened JsonWire
  import opened JsonSpacing
  import opened JsonTokens
  import opened JsonSamples

  // ---------------------------------------------------------------- numbers

  predicate IsExponent(c: Byte) { c == 0x65 || c == 0x45 }

  /** The byte at i fits what comes before it: a digit always; a point unless there was a point or an
      exponent; an exponent unless there was one; a sign at the start or after an exponent. */
  predicate FitsAt(b: seq<Byte>, i: nat)
    requires i < |b|
  {
    var c := b[i];
    || IsDigit(c)
    || (c == 0x2E && forall j :: 0 <= j < i ==> b[j] != 0x2E && !IsExponent(b[j]))
    || (IsExponent(c) && forall j :: 0 <= j < i ==> !IsExponent(b[j]))
    || ((c == MINUS || c == PLUS) && (i == 0 || IsExponent(b[i - 1])))
  }

  predicate Plausible(b: seq<Byte>) { forall i :: 0 <= i < |b| ==> FitsAt(b, i) }

  /** No quote, no letter that begins a word, and nothing that ends a number. */
  predicate Bare(b: seq<Byte>) {
    forall i :: 0 <= i < |b| ==> b[i] != QUOTE && b[i] != 0x4E && b[i] != 0x49 && !EndsNumber(b[i])
  }

  /** The loop's state after b. */
  function After(b: seq<Byte>): NumState {
    NumState(b, exists j :: 0 <= j < |b| && b[j] == 0x2E, b == [] || IsExponent(b[|b| - 1]),
      exists j :: 0 <= j < |b| && IsExponent(b[j]), false)
  }

  lemma OneByte(b: seq<Byte>, c: Byte, rest: seq<Byte>)
    requires Bare([c])
    ensures FitsAt(b + [c], |b|) ==> Number([c] + rest, After(b)) == Number(rest, After(b + [c]))
    ensures !FitsAt(b + [c], |b|) ==> Number([c] + rest, After(b)) == (Failed(InvalidData), rest)
  {
    var bc, t := b + [c], [c] + rest;
    assert [c][0] == c && t[0] == c && t[1..] == rest && bc[|b|] == c;
    assert forall j :: 0 <= j < |b| ==> bc[j] == b[j];
    if FitsAt(bc, |b|) { StateAfter(b, c); }
  }

  lemma StateAfter(b: seq<Byte>, c: Byte)
    requires FitsAt(b + [c], |b|)
    ensures NumStep(After(b), c) == Some(After(b + [c]))
  {
    var bc := b + [c];
    assert bc[|b|] == c && forall j :: 0 <= j < |b| ==> bc[j] == b[j];
    assert After(bc).point == (After(b).point || c == 0x2E);
    assert After(bc).exp == (After(b).exp || IsExponent(c));
  }

  lemma {:induction false} NumberFrom(a: seq<Byte>, b: seq<Byte>, rest: seq<Byte>)
    requires Plausible(a) && Bare(b)
    ensures Plausible(a + b) ==> Number(b + rest, After(a)) == Number(rest, After(a + b))
    ensures !Plausible(a + b) ==> Number(b + rest, After(a)).0 == Failed(InvalidData)
    decreases |b|
  {
    hide Number, After;
    if b == [] {
      assert a + b == a && b + rest == rest;
    } else {
      var ac, tail := a + [b[0]], b[1..];
      assert ac + tail == a + b && b + rest == [b[0]] + (tail + rest) && (a + b)[|a|] == b[0];
      OneByte(a, b[0], tail + rest);
      PlausibleNext(a, b);
      if FitsAt(ac, |a|) { NumberFrom(ac, tail, rest); }
    }
  }

  lemma BufferAfter(a: seq<Byte>)
    ensures After(a).buf == a
  {}

  lemma PlausibleNext(a: seq<Byte>, b: seq<Byte>)
    requires Plausible(a) && b != []
    ensures Plausible(a + [b[0]]) <==> FitsAt(a + [b[0]], |a|)
    ensures Plausible(a + b) ==> Plausible(a + [b[0]])
  {
    var ac, ab := a + [b[0]], a + b;
    forall i | 0 <= i < |a|
      ensures FitsAt(ac, i)
    {
      assert FitsAt(a, i);
      assert forall j :: 0 <= j <= i ==> ac[j] == a[j];
    }
    assert forall j :: 0 <= j < |ac| ==> ab[j] == ac[j];
    if Plausible(ab) { assert FitsAt(ab, |a|); }
  }

  /** Text without quotes, up to where a number may end, is taken for a number if and only if each of
      its bytes fits and there is at least one; the number is that of the text if it is an integer,
      and zero otherwise. */
  lemma NumberIff(b: seq<Byte>, rest: seq<Byte>)
    requires Bare(b) && Stops(rest)
    ensures if b != [] && Plausible(b) then Number(b + rest, NUM_START) == (Done(ParseInt(b)), rest)
      else Number(b + rest, NUM_START).0 == Failed(InvalidData)
  {
    hide Number, ParseInt, FitsAt;
    NumberFrom([], b, rest);
    NumberStops(rest, After(b));
    assert [] + b == b;
    assert After([]) == NUM_START;
  }

  /** A word may only stand at the beginning, after a sign at most, and must be whole. */
  lemma WordRefused(b: seq<Byte>, c: Byte, rest: seq<Byte>)
    requires Bare(b) && Plausible(b) && (c == 0x4E || c == 0x49)
    requires
      var word := if c == 0x4E then REST_OF_NAN else REST_OF_INFINITY;
      var start := b == [] || (c == 0x49 && (b == [MINUS] || b == [PLUS]));
      !start || (rest != [] && !(word <= rest))
    ensures Number(b + ([c] + rest), NUM_START).0 == Failed(InvalidData)
  {
    hide FitsAt;
    NumberFrom([], b, [c] + rest);
    assert [] + b == b && After([]) == NUM_START;
    assert ([c] + rest)[1..] == rest;
  }

  /** A byte ends a number if and only if it is one of these nine. */
  lemma NumberEnders(c: Byte)
    ensures EndsNumber(c) <==> c in Ascii(" \t\n\r}],:") + [0]
  {
    assert Ascii(" \t\n\r}],:") == [0x20, 0x09, 0x0A, 0x0D, 0x7D, 0x5D, 0x2C, 0x3A];
  }

  predicate IsWord(word: seq<Byte>) {
    word == Ascii("NaN") || word == Ascii("Infinity") || word == Ascii("-Infinity") || word == Ascii("+Infinity")
  }

  /** NaN and the infinities, quoted or not, read as the integer zero. */
  lemma WordsReadAsZero(word: seq<Byte>, rest: seq<Byte>)
    requires IsWord(word)
    ensures rest == [] || rest[0] != QUOTE ==> Number(word + rest, NUM_START) == (Done(0), rest)
    ensures Number([QUOTE] + word + [QUOTE] + rest, NUM_START) == (Done(0), rest)
  {
    hide Number, IsWord;
    WordRead(word, rest, NUM_START);
    var open := NUM_START.(quotes := true);
    assert [QUOTE] + word + [QUOTE] + rest == [QUOTE] + (word + ([QUOTE] + rest));
    NumberStep(QUOTE, word + ([QUOTE] + rest), NUM_START);
    WordRead(word, [QUOTE] + rest, open);
    assert ([QUOTE] + rest)[1..] == rest;
  }

  lemma WordRead(word: seq<Byte>, rest: seq<Byte>, n: NumState)
    requires n.buf == [] && n.canSign && IsWord(word)
    ensures Number(word + rest, n)
      == (Done(0), if n.quotes && rest != [] && rest[0] == QUOTE then rest[1..] else rest)
  {
    hide Number;
    WordTexts();
    var infinity := [0x49] + REST_OF_INFINITY;
    if word == Ascii("NaN") {
      NanRead(rest, n);
    } else if word == Ascii("Infinity") {
      InfinityRead(infinity, rest, n);
    } else {
      var sign := word[0];
      assert word == [sign] + infinity && word + rest == [sign] + (infinity + rest);
      NumberStep(sign, infinity + rest, n);
      assert n.buf + [sign] == [sign];
      InfinityRead(infinity, rest, n.(buf := [sign], canSign := false));
    }
  }

  lemma WordTexts()
    ensures Ascii("NaN") == [0x4E] + REST_OF_NAN && Ascii("Infinity") == [0x49] + REST_OF_INFINITY
    ensures Ascii("-Infinity") == [MINUS] + ([0x49] + REST_OF_INFINITY)
    ensures Ascii("+Infinity") == [PLUS] + ([0x49] + REST_OF_INFINITY)
  {
  }

  lemma NanRead(rest: seq<Byte>, n: NumState)
    requires n.buf == []
    ensures Number([0x4E] + REST_OF_NAN + rest, n)
      == (Done(0), if n.quotes && rest != [] && rest[0] == QUOTE then rest[1..] else rest)
  {
    var t := [0x4E] + REST_OF_NAN + rest;
    assert t[1..] == REST_OF_NAN + rest && t[1..][2..] == rest;
  }

  lemma InfinityRead(w: seq<Byte>, rest: seq<Byte>, n: NumState)
    requires w == [0x49] + REST_OF_INFINITY && (n.buf == [] || n.buf == [PLUS] || n.buf == [MINUS])
    ensures Number(w + rest, n) == (Done(0), if n.quotes && rest != [] && rest[0] == QUOTE then rest[1..] else rest)
  {
    var t := w + rest;
    assert t[1..] == REST_OF_INFINITY + rest && t[1..][7..] == rest;
  }

  // ---------------------------------------------------------------- brackets and separators

  /** Between the last token of a container and its closing bracket there may be white space and
      nothing else. */
  lemma CloseIff(u: seq<Byte>, rest: seq<Byte>, ctx: seq<Ctx>, c: Ctx, trace: seq<seq<Ctx>>)
    requires Rooted(ctx) && (c.InList? || c.ObjectFirst? || c.NextKey?)
    requires forall i :: 0 <= i < |u| ==> u[i] != RBRACE && u[i] != RBRACKET && u[i] != NULL[0]
    ensures
      var s := At(u + [if c.InList? then RBRACKET else RBRACE] + rest, ctx + [c], trace);
      var r := if c.InList? then ParseListEnd(s) else ParseObjectEnd(s);
      r.r == if White(u) then Done(()) else Failed(InvalidData)
  {
    hide ParsePostValue;
    var bracket := if c.InList? then RBRACKET else RBRACE;
    var t := u + [bracket] + rest;
    if White(u) {
      assert t == u + ([bracket] + rest);
      if c.InList? { ListEndOf(u, rest, ctx, trace); } else { ObjectEndOf(u, c, rest, ctx, trace); }
    } else {
      var i := LeadingWhite(u);
      var v := u[i..] + [bracket] + rest;
      assert t == u[..i] + v;
      SkipTo(u[..i], v);
      FindFirst(u[i..], bracket, rest);
      assert v[..|u| - i] == u[i..] && !AllSpace(u[i..]) by { assert u[i..][0] == u[i]; }
    }
  }

  lemma {:induction false} LeadingWhite(u: seq<Byte>) returns (i: nat)
    requires !White(u)
    ensures i < |u| && White(u[..i]) && !IsSpace(u[i])
  {
    if IsSpace(u[0]) {
      var k :| 0 <= k < |u| && !IsSpace(u[k]);
      assert u[1..][k - 1] == u[k];
      i := LeadingWhite(u[1..]);
      assert u[..i + 1] == [u[0]] + u[1..][..i];
      i := i + 1;
    } else {
      i := 0;
    }
  }

  lemma {:induction false} FindFirst(u: seq<Byte>, c: Byte, rest: seq<Byte>)
    requires c !in u
    ensures Find(u + [c] + rest, c) == Some(|u|)
  {
    var t := u + [c] + rest;
    if u != [] {
      assert t[0] == u[0] && t[1..] == u[1..] + [c] + rest;
      FindFirst(u[1..], c, rest);
    }
  }

  /** A null where a container should be closed is taken for its end, and closes nothing. */
  lemma NullAtClose(g: seq<Byte>, rest: seq<Byte>, ctx: seq<Ctx>, trace: seq<seq<Ctx>>)
    requires Rooted(ctx) && White(g)
    ensures ParseObjectEnd(At(g + (NULL + rest), ctx, trace)) == Read(Done(()), At(rest, ctx, trace))
    ensures ParseListEnd(At(g + (NULL + rest), ctx, trace)) == Read(Done(()), At(rest, ctx, trace))
  {
    var t := NULL + rest;
    SkipTo(g, t);
    assert NULL <= t && t[4..] == rest;
  }

  /** Where the context calls for a separator, nothing else will do. */
  lemma SeparatorRequired(g: seq<Byte>, c: Byte, rest: seq<Byte>, ctx: seq<Ctx>, trace: seq<seq<Ctx>>)
    requires Rooted(ctx) && White(g) && !IsSpace(c) && Separator(Top(ctx)) != [] && [c] != Separator(Top(ctx))
    requires c != RBRACE && c != RBRACKET
    ensures
      var s := At(g + ([c] + rest), ctx, trace);
      && ParseI64(s).r == Failed(InvalidData) && ReadString(s).r == Failed(InvalidData)
      && ParseOpen(s, LBRACE, ObjectFirst).r == Failed(InvalidData)
      && ParseOpen(s, LBRACKET, ListFirst).r == Failed(InvalidData)
  {
    SkipTo(g, [c] + rest);
  }

  /** Where an object or a list should begin: its bracket opens it, null is reported, the end of the
      text and anything else are errors. */
  lemma OpenIff(c: Byte, rest: seq<Byte>, list: bool, ctx: seq<Ctx>, trace: seq<seq<Ctx>>)
    requires Rooted(ctx) && Separator(Top(ctx)) == [] && !IsSpace(c)
    ensures
      var bracket, inner := if list then LBRACKET else LBRACE, if list then ListFirst else ObjectFirst;
      var r := ParseOpen(At([c] + rest, ctx, trace), bracket, inner).r;
      && (r == Done(false) <==> c == bracket)
      && (r == Done(true) <==> NULL <= [c] + rest)
      && (r.Failed? <==> c != bracket && !(NULL <= [c] + rest))
      && ParseOpen(At([], ctx, trace), bracket, inner).r == Failed(EndOfFile)
  {
    assert SkipSpace([c] + rest) == [c] + rest;
    assert NULL <= [c] + rest ==> ([c] + rest)[0] == NULL[0];
  }

  // ---------------------------------------------------------------- names and versions

  /** A name is that of a type if and only if it is one of the eleven. */
  lemma TypeNameIff(name: seq<Byte>, g: seq<Byte>, h: seq<Byte>, rest: seq<Byte>, ctx: seq<Ctx>, trace: seq<seq<Ctx>>)
    requires Rooted(ctx) && White(g) && White(h) && forall i :: 0 <= i < |name| ==> Safe(name[i])
    ensures ReadTypeName(At(Lead(g, ctx, h) + (Quote(name) + rest), ctx, trace)).r
      == if StringToTypeId(name).Some? then Done(StringToTypeId(name).value) else Failed(InvalidData)
    ensures StringToTypeId(name).Some? <==> exists t :: TypeIdToString(t) == Some(name)
  {
    hide ReadString, Lead, Quote, Sanitize;
    SafeIsClean(name);
    ReadStringOf(name, g, h, rest, ctx, trace);
    if t :| TypeIdToString(t) == Some(name) { TypeNames(t, name); }
    if StringToTypeId(name).Some? { TypeNames(StringToTypeId(name).value, name); }
  }

  /** A message of another version is refused. */
  lemma VersionRefused(k: I64, rest: seq<Byte>, ctx: seq<Ctx>, trace: seq<seq<Ctx>>)
    requires ToI32(k) != JSON_VERSION
    ensures ReadMessageBegin(At([LBRACKET] + (FormatInt(k) + ([COMMA] + rest)), ctx, trace)).r == Failed(InvalidData)
  {
    hide ParseOpen, ParseI64, ReadString, FormatInt, Lead;
    var top, inner := [Toplevel], [Toplevel, ListFirst];
    NoneWhite();
    TopSeparator();
    ListSeparators(top);
    assert top + [ListFirst] == inner;
    var version := FormatInt(k) + ([COMMA] + rest);
    NoLead([], top, [LBRACKET] + version);
    assert [] + ([LBRACKET] + version) == [LBRACKET] + version;
    OpenOf([], [], LBRACKET, ListFirst, version, top, trace);
    NoLead([], inner, version);
    assert [] + version == version;
    PostOf(top, ListFirst);
    ParseI64Of(k, [], [], [COMMA] + rest, inner, trace + [inner]);
  }

  lemma NoneWhite()
    ensures White([])
  {}
}
