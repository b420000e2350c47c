/** Each token the JSON writer emits, read back by the call that expects it. */
module JsonTokens {
  import opened Options
  import opened Words
  import opened Values
  import opened Utf8
  import opened JsonText
  import opened JsonWire
  import opened JsonTrees
  import opened JsonSpacing

  /** Text that stops a number and is not skipped: what follows a value inside a container. */
  predicate Punct(t: seq<Byte>) {
    t != [] && (t[0] == COMMA || t[0] == COLON || t[0] == RBRACE || t[0] == RBRACKET)
  }

  /** Where a number may end. */
  predicate Stops(rest: seq<Byte>) { rest == [] || EndsNumber(rest[0]) }

  lemma PunctFacts(t: seq<Byte>)
    requires Punct(t)
    ensures SkipSpace(t) == t && Stops(t)
  {
  }

  /** A reader about to read text, after tokens with the given stacks. */
  function At(text: seq<Byte>, ctx: seq<Ctx>, trace: seq<seq<Ctx>>): JIn { JIn(text, ctx, trace) }

  // ---------------------------------------------------------------- white space

  lemma {:induction false} SkipWhite(g: seq<Byte>, u: seq<Byte>)
    requires White(g)
    ensures SkipSpace(g + u) == SkipSpace(u)
  {
    if g == [] {
      assert g + u == u;
    } else {
      SkipWhite(g[1..], u);
      assert (g + u)[1..] == g[1..] + u;
    }
  }

  lemma SkipTo(g: seq<Byte>, u: seq<Byte>)
    requires White(g) && u != [] && !IsSpace(u[0])
    ensures SkipSpace(g + u) == u && SkipSpace(u) == u
  {
    SkipWhite(g, u);
  }

  lemma StopsAfter(g: seq<Byte>, u: seq<Byte>)
    requires White(g) && Stops(u)
    ensures Stops(g + u)
  {
    if g == [] { assert g + u == u; }
  }

  // ---------------------------------------------------------------- separators and brackets

  /** What the context calls for, with white space before and after it. */
  function Lead(g: seq<Byte>, ctx: seq<Ctx>, h: seq<Byte>): seq<Byte>
    requires ctx != []
  {
    g + (Separator(Top(ctx)) + h)
  }

  lemma PreOf(g: seq<Byte>, h: seq<Byte>, u: seq<Byte>, ctx: seq<Ctx>, trace: seq<seq<Ctx>>)
    requires Rooted(ctx) && White(g) && White(h) && u != [] && !IsSpace(u[0])
    ensures ParsePreValue(At(Lead(g, ctx, h) + u, ctx, trace)) == Read(Done(()), At(u, ctx, trace))
  {
    var sep := Separator(Top(ctx));
    SkipTo(h, u);
    if sep == [] {
      assert Lead(g, ctx, h) + u == g + (h + u);
      SkipWhite(g, h + u);
    } else {
      var t := sep + (h + u);
      assert Lead(g, ctx, h) + u == g + t;
      SkipTo(g, t);
      assert t[1..] == h + u;
    }
  }

  lemma OpenOf(g: seq<Byte>, h: seq<Byte>, bracket: Byte, c: Ctx, rest: seq<Byte>, ctx: seq<Ctx>,
      trace: seq<seq<Ctx>>)
    requires Rooted(ctx) && !c.Toplevel? && !IsSpace(bracket) && White(g) && White(h)
    ensures ParseOpen(At(Lead(g, ctx, h) + ([bracket] + rest), ctx, trace), bracket, c)
         == Read(Done(false), At(rest, ctx + [c], trace + [ctx + [c]]))
  {
    hide ParsePreValue, Lead;
    PreOf(g, h, [bracket] + rest, ctx, trace);
  }

  lemma CloseOf(g: seq<Byte>, bracket: Byte, rest: seq<Byte>, ctx: seq<Ctx>, trace: seq<seq<Ctx>>)
    requires White(g) && !IsSpace(bracket) && bracket != NULL[0]
    ensures ReadIfNull(At(g + ([bracket] + rest), ctx, trace)) == Read(Done(false), At([bracket] + rest, ctx, trace))
    ensures ReadToClose(At([bracket] + rest, ctx, trace), bracket) == Read(Done(()), At(rest, ctx, trace))
  {
    var t := [bracket] + rest;
    SkipTo(g, t);
    assert Find(t, bracket) == Some(0);
    assert t[1..] == rest;
  }

  lemma ObjectEndOf(g: seq<Byte>, c: Ctx, rest: seq<Byte>, ctx: seq<Ctx>, trace: seq<seq<Ctx>>)
    requires Rooted(ctx) && White(g) && (c.ObjectFirst? || c.NextKey?)
    ensures ParseObjectEnd(At(g + ([RBRACE] + rest), ctx + [c], trace))
         == Read(Done(()), At(SkipSpace(rest), Post(ctx), trace + [Post(ctx)]))
  {
    hide ReadIfNull, ReadToClose;
    CloseOf(g, RBRACE, rest, ctx + [c], trace);
    assert Pop(ctx + [c]) == ctx;
  }

  /** What a list leaves of the text after it: at the top level nothing is skipped. */
  function AfterList(ctx: seq<Ctx>, rest: seq<Byte>): seq<Byte>
    requires ctx != []
  {
    if Top(ctx).Toplevel? then rest else SkipSpace(rest)
  }

  lemma ListEndOf(g: seq<Byte>, rest: seq<Byte>, ctx: seq<Ctx>, trace: seq<seq<Ctx>>)
    requires Rooted(ctx) && White(g)
    ensures ParseListEnd(At(g + ([RBRACKET] + rest), ctx + [InList], trace))
         == Read(Done(()), At(AfterList(ctx, rest), Post(ctx), trace + [Post(ctx)]))
  {
    hide ReadIfNull, ReadToClose;
    CloseOf(g, RBRACKET, rest, ctx + [InList], trace);
    assert Pop(ctx + [InList]) == ctx;
    assert Top(ctx).Toplevel? ==> Post(ctx) == ctx;
  }

  // ---------------------------------------------------------------- numbers

  lemma NumberStep(c: Byte, rest: seq<Byte>, n: NumState)
    requires IsDigit(c) || ((c == MINUS || c == PLUS) && n.canSign) || c == QUOTE
    ensures NumStep(n, c).Some? && Number([c] + rest, n) == Number(rest, NumStep(n, c).value)
  {
    assert ([c] + rest)[1..] == rest;
  }

  lemma {:induction false} NumberDigits(ds: seq<Byte>, rest: seq<Byte>, n: NumState)
    requires AllDigits(ds) && ds != []
    ensures Number(ds + rest, n) == Number(rest, n.(buf := n.buf + ds, canSign := false))
  {
    hide Number;
    var m := n.(buf := n.buf + [ds[0]], canSign := false);
    assert IsDigit(ds[0]);
    assert ds + rest == [ds[0]] + (ds[1..] + rest);
    NumberStep(ds[0], ds[1..] + rest, n);
    if |ds| == 1 {
      assert ds[1..] + rest == rest && ds == [ds[0]];
    } else {
      NumberDigits(ds[1..], rest, m);
      assert n.buf + ds == m.buf + ds[1..];
    }
  }

  lemma NumberStops(rest: seq<Byte>, n: NumState)
    requires Stops(rest)
    ensures Number(rest, n) == (NumberEnd(n.buf), rest)
  {
  }

  /** Digits, after a sign or none. */
  predicate IsNumeral(b: seq<Byte>) {
    var ds := if b != [] && (b[0] == MINUS || b[0] == PLUS) then b[1..] else b;
    ds != [] && AllDigits(ds)
  }

  lemma NumeralRead(b: seq<Byte>, rest: seq<Byte>, n: NumState)
    requires IsNumeral(b) && n.buf == [] && n.canSign
    ensures Number(b + rest, n) == Number(rest, n.(buf := b, canSign := false))
  {
    hide Number, ParseInt;
    if b[0] == MINUS || b[0] == PLUS {
      assert b == [b[0]] + b[1..] && b + rest == [b[0]] + (b[1..] + rest);
      NumberStep(b[0], b[1..] + rest, n);
      assert n.buf + [b[0]] == [b[0]];
      NumberDigits(b[1..], rest, n.(buf := [b[0]], canSign := false));
    } else {
      NumberDigits(b, rest, n);
      assert n.buf + b == b;
    }
  }

  lemma NumberGoesOn(t: seq<Byte>, n: NumState)
    requires !Stops(t)
    ensures |Number(t, n).1| < |t|
  {
  }

  /** A quoted number is read up to its closing quote if and only if something follows there that
      stops a number: the quote itself does not. */
  lemma QuotedNumberIff(b: seq<Byte>, rest: seq<Byte>)
    requires IsNumeral(b)
    ensures Number([QUOTE] + b + [QUOTE] + rest, NUM_START) == (Done(ParseInt(b)), rest) <==> Stops(rest)
  {
    hide Number, ParseInt, IsNumeral, Stops;
    var open := NUM_START.(quotes := true);
    assert [QUOTE] + b + [QUOTE] + rest == [QUOTE] + (b + ([QUOTE] + rest));
    NumberStep(QUOTE, b + ([QUOTE] + rest), NUM_START);
    NumeralRead(b, [QUOTE] + rest, open);
    var n := open.(buf := b, canSign := false);
    NumberStep(QUOTE, rest, n);
    if Stops(rest) {
      NumberStops(rest, n);
      NumeralNonempty(b);
    } else {
      NumberGoesOn(rest, n);
    }
  }

  lemma NumeralNonempty(b: seq<Byte>)
    requires IsNumeral(b)
    ensures b != []
  {
  }

  /** So "1"2 reads as twelve. */
  lemma QuoteInsideNumber(rest: seq<Byte>)
    requires Stops(rest)
    ensures Number([QUOTE, 0x31, QUOTE, 0x32] + rest, NUM_START) == (Done(12), rest)
  {
    hide Number, ParseInt;
    var one, two := [0x31], [0x32];
    var n := NumState(one, false, false, false, true);
    assert [QUOTE, 0x31, QUOTE, 0x32] + rest == [QUOTE] + (one + ([QUOTE] + (two + rest)));
    NumberStep(QUOTE, one + ([QUOTE] + (two + rest)), NUM_START);
    NumeralRead(one, [QUOTE] + (two + rest), NUM_START.(quotes := true));
    NumberStep(QUOTE, two + rest, n);
    NumberDigits(two, rest, n);
    assert one + two == [0x31, 0x32];
    NumberStops(rest, n.(buf := [0x31, 0x32]));
    TwelveParses();
  }

  lemma TwelveParses()
    ensures ParseInt([0x31, 0x32]) == 12
  {
    var b: seq<Byte> := [0x31, 0x32];
    assert b[..1] == [0x31] && b[..1][..0] == [];
    assert DigitsValue([0x31]) == 1 by {
      var one: seq<Byte> := [0x31];
      assert one[..0] == [];
    }
    assert DigitsValue(b) == 12;
  }

  /** A numeral as it may stand in a text: plain, or in quotes, wherever it is. */
  function Spelled(b: seq<Byte>, quoted: bool): seq<Byte> { if quoted then [QUOTE] + b + [QUOTE] else b }

  lemma NumberSpelled(b: seq<Byte>, quoted: bool, rest: seq<Byte>)
    requires IsNumeral(b) && Stops(rest)
    ensures Number(Spelled(b, quoted) + rest, NUM_START) == (Done(ParseInt(b)), rest)
  {
    hide Number, ParseInt, IsNumeral, Stops;
    if quoted {
      QuotedNumberIff(b, rest);
    } else {
      NumeralRead(b, rest, NUM_START);
      NumberStops(rest, NUM_START.(buf := b, canSign := false));
      NumeralNonempty(b);
    }
  }

  lemma SpelledBegins(b: seq<Byte>, quoted: bool, rest: seq<Byte>)
    requires IsNumeral(b)
    ensures
      var t := Spelled(b, quoted) + rest;
      t != [] && !IsSpace(t[0]) && t[0] != NULL[0] && PeekNull(t) == Done(false)
  {
    var t := Spelled(b, quoted) + rest;
    assert b[0] == MINUS || b[0] == PLUS || IsDigit(b[0]);
    assert t[0] == if quoted then QUOTE else b[0];
    assert !(NULL <= t) && !(t <= NULL);
  }

  /** A number is read in any spelling: with a sign or none, with leading zeros, in quotes or not;
      white space may stand around it. */
  lemma ParseSpelled(b: seq<Byte>, quoted: bool, g: seq<Byte>, h: seq<Byte>, rest: seq<Byte>, ctx: seq<Ctx>,
      trace: seq<seq<Ctx>>)
    requires Rooted(ctx) && White(g) && White(h) && IsNumeral(b) && Stops(rest)
    ensures ParseI64(At(Lead(g, ctx, h) + (Spelled(b, quoted) + rest), ctx, trace))
         == Read(Done(ParseInt(b)), At(SkipSpace(rest), Post(ctx), trace + [Post(ctx)]))
  {
    hide ParsePreValue, Number, Spelled, PeekNull, ParseInt, IsNumeral, Stops, Lead;
    var t := Spelled(b, quoted) + rest;
    SpelledBegins(b, quoted, rest);
    PreOf(g, h, t, ctx, trace);
    assert SkipSpace(t) == t;
    NumberSpelled(b, quoted, rest);
    assert ReadNumeric(At(t, ctx, trace)) == Read(Done(ParseInt(b)), At(rest, ctx, trace));
  }

  lemma FormatIsNumeral(n: int)
    ensures IsNumeral(FormatInt(n))
  {
    hide Decimal;
    if n < 0 { assert FormatInt(n)[1..] == Decimal(-n); }
  }

  lemma ParseI64Of(k: I64, g: seq<Byte>, h: seq<Byte>, rest: seq<Byte>, ctx: seq<Ctx>, trace: seq<seq<Ctx>>)
    requires Rooted(ctx) && White(g) && White(h) && Stops(rest)
    ensures ParseI64(At(Lead(g, ctx, h) + (NumberBody(k, AtKey(ctx)) + rest), ctx, trace))
         == Read(Done(k), At(SkipSpace(rest), Post(ctx), trace + [Post(ctx)]))
  {
    hide ParseI64, FormatInt, ParseInt, IsNumeral, Stops, Lead, QuoteBody;
    FormatIsNumeral(k);
    ParseFormat(k);
    QuoteNumber(k);
    ParseSpelled(FormatInt(k), AtKey(ctx), g, h, rest, ctx, trace);
  }

  /** null reads as the number zero and as the empty string. */
  lemma NullOf(g: seq<Byte>, h: seq<Byte>, rest: seq<Byte>, ctx: seq<Ctx>, trace: seq<seq<Ctx>>)
    requires Rooted(ctx) && White(g) && White(h)
    ensures var s := At(Lead(g, ctx, h) + (NULL + rest), ctx, trace);
      var after := At(SkipSpace(rest), Post(ctx), trace + [Post(ctx)]);
      ParseI64(s) == Read(Done(0), after) && ReadString(s) == Read(Done([]), after)
  {
    hide ParsePreValue, Lead, ReadNumeric;
    var t := NULL + rest;
    PreOf(g, h, t, ctx, trace);
    assert NULL <= t && t[4..] == rest;
  }

  // ---------------------------------------------------------------- strings

  /** The end of any properly escaped text is the quote after it. */
  lemma {:induction false} EndOfEscaped(t: seq<Byte>, rest: seq<Byte>)
    requires WellEscaped(t)
    ensures StringEnd(t + [QUOTE] + rest, false) == Some(|t|)
    decreases |t|
  {
    var u := t + [QUOTE] + rest;
    if t == [] {
      assert u[0] == QUOTE;
    } else if t[0] == BACKSLASH {
      var n := if |t| >= 2 && SimpleEscape(t[1]).Some? && WellEscaped(t[2..]) then 2 else 6;
      EndOfEscaped(t[n..], rest);
      assert u[n..] == t[n..] + [QUOTE] + rest;
      EscapeEnds(u, n, |t|);
    } else {
      EndOfEscaped(t[1..], rest);
      assert u[1..] == t[1..] + [QUOTE] + rest;
    }
  }

  lemma EscapeEnds(u: seq<Byte>, n: nat, end: nat)
    requires n == 2 || (n == 6 && |u| >= 6 && forall i :: 2 <= i < 6 ==> IsHexDigit(u[i]))
    requires |u| >= n && u[0] == BACKSLASH && end >= n && StringEnd(u[n..], false) == Some(end - n)
    ensures StringEnd(u, false) == Some(end)
  {
    EscapedPair(u);
    hide StringEnd, IsHexDigit;
    if n == 6 {
      var v := u[2..];
      assert v[1..] == u[3..] && u[3..][1..] == u[4..] && u[4..][1..] == u[5..] && u[5..][1..] == u[6..];
      PlainByte(u[5..]);
      PlainByte(u[4..]);
      PlainByte(u[3..]);
      PlainByte(v);
    }
  }

  lemma EscapedPair(u: seq<Byte>)
    requires |u| >= 2 && u[0] == BACKSLASH
    ensures StringEnd(u, false) ==
      if StringEnd(u[2..], false).None? then None else Some(2 + StringEnd(u[2..], false).value)
  {
    assert u[1..][1..] == u[2..];
  }

  lemma PlainByte(u: seq<Byte>)
    requires u != [] && IsHexDigit(u[0])
    ensures StringEnd(u, false) ==
      if StringEnd(u[1..], false).None? then None else Some(1 + StringEnd(u[1..], false).value)
  {
  }

  lemma StringTokenOf(t: seq<Byte>, rest: seq<Byte>)
    requires WellEscaped(t)
    ensures UnquoteBody(t).Some? && StringToken([QUOTE] + t + [QUOTE] + rest) == (Done(UnquoteBody(t).value), rest)
  {
    hide StringEnd, UnquoteBody, WellEscaped;
    var u := t + [QUOTE] + rest;
    assert ([QUOTE] + t + [QUOTE] + rest)[1..] == u;
    EndOfEscaped(t, rest);
    assert u[..|t| + 1] == t + [QUOTE] && u[|t| + 1..] == rest;
    assert ([QUOTE] + u[..|t| + 1])[1..|t| + 1] == t;
    UnquoteIff(t);
  }

  /** A string is read in any spelling: whatever is properly escaped gives what the escapes stand
      for; white space may stand around it. */
  lemma ReadSpelled(t: seq<Byte>, g: seq<Byte>, h: seq<Byte>, rest: seq<Byte>, ctx: seq<Ctx>, trace: seq<seq<Ctx>>)
    requires Rooted(ctx) && White(g) && White(h) && WellEscaped(t)
    ensures UnquoteBody(t).Some?
    ensures ReadString(At(Lead(g, ctx, h) + ([QUOTE] + t + [QUOTE] + rest), ctx, trace))
         == Read(Done(UnquoteBody(t).value), At(SkipSpace(rest), Post(ctx), trace + [Post(ctx)]))
  {
    hide ParsePreValue, StringToken, UnquoteBody, WellEscaped, Lead;
    var u := [QUOTE] + t + [QUOTE] + rest;
    assert u[0] == QUOTE;
    PreOf(g, h, u, ctx, trace);
    StringTokenOf(t, rest);
  }

  lemma ReadStringOf(b: seq<Byte>, g: seq<Byte>, h: seq<Byte>, rest: seq<Byte>, ctx: seq<Ctx>, trace: seq<seq<Ctx>>)
    requires Rooted(ctx) && White(g) && White(h)
    ensures ReadString(At(Lead(g, ctx, h) + (Quote(b) + rest), ctx, trace))
         == Read(Done(Sanitize(b)), At(SkipSpace(rest), Post(ctx), trace + [Post(ctx)]))
  {
    hide ReadString, UnquoteBody, WellEscaped, Lead, QuoteBody, Sanitize;
    UnquoteQuote(b);
    assert Quote(b)[1..|Quote(b)| - 1] == QuoteBody(b);
    UnquoteIff(QuoteBody(b));
    ReadSpelled(QuoteBody(b), g, h, rest, ctx, trace);
  }

  lemma {:induction false} SafeIsClean(s: seq<Byte>)
    requires forall i :: 0 <= i < |s| ==> Safe(s[i])
    ensures Sanitize(s) == s
  {
    if s != [] {
      AsciiRune(s);
      SafeIsClean(s[1..]);
    }
  }

  lemma ReadTypeNameOf(t: Byte, g: seq<Byte>, h: seq<Byte>, rest: seq<Byte>, ctx: seq<Ctx>, trace: seq<seq<Ctx>>)
    requires Rooted(ctx) && IsType(t) && White(g) && White(h)
    ensures ReadTypeName(At(Lead(g, ctx, h) + (Name(t) + rest), ctx, trace))
         == Read(Done(t), At(SkipSpace(rest), Post(ctx), trace + [Post(ctx)]))
  {
    hide ReadString, TypeIdToString, StringToTypeId, Quote, Sanitize, Lead;
    TypeNames(t, []);
    var name := TypeIdToString(t).value;
    TypeNames(t, name);
    SafeIsClean(name);
    ReadStringOf(name, g, h, rest, ctx, trace);
  }

  // ---------------------------------------------------------------- headers

  /** The white space after the separator, if there is one. */
  function SepGap(gap: Gaps, at: nat, ctx: seq<Ctx>): seq<Byte>
    requires ctx != []
  {
    if Separator(Top(ctx)) == [] then [] else gap(at)
  }

  lemma SepLaid(g: seq<Byte>, gap: Gaps, at: nat, ctx: seq<Ctx>, toks: seq<Token>, rest: seq<Byte>)
    requires ctx != [] && AllWhite(gap)
    ensures g + Lay(gap, at, SepTokens(ctx) + toks) + rest
         == Lead(g, ctx, SepGap(gap, at, ctx)) + (Lay(gap, at + |SepTokens(ctx)|, toks) + rest)
    ensures White(SepGap(gap, at, ctx))
    ensures Tight(gap, at, SepTokens(ctx) + toks) <==> Tight(gap, at + |SepTokens(ctx)|, toks)
  {
    hide Lay, Separator;
    var sep := Separator(Top(ctx));
    assert White(gap(at));
    TightConcat(gap, at, SepTokens(ctx), toks);
    if sep == [] {
      assert SepTokens(ctx) + toks == toks;
      assert g + Lay(gap, at, toks) + rest == g + ([] + []) + (Lay(gap, at, toks) + rest);
    } else {
      LayCons(gap, at, Tok(sep), toks, rest);
      Regroup(g, sep, gap(at), Lay(gap, at + 1, toks) + rest);
      Associate(g, Lay(gap, at, [Tok(sep)] + toks), rest);
    }
  }

  lemma Regroup(a: seq<Byte>, b: seq<Byte>, c: seq<Byte>, d: seq<Byte>)
    ensures a + (b + (c + d)) == a + (b + c) + d
  {
  }

  lemma NoLead(g: seq<Byte>, ctx: seq<Ctx>, u: seq<Byte>)
    requires ctx != []
    ensures Separator(Top(ctx)) == [] ==> Lead(g, ctx, []) + u == g + u
    ensures Lead([], ctx, g) + u == Separator(Top(ctx)) + (g + u)
  {
  }

  /** A list header, with white space anywhere between its tokens. */
  lemma ReadListBeginOf(t: Byte, n: I64, g: seq<Byte>, gap: Gaps, at: nat, rest: seq<Byte>, ctx: seq<Ctx>,
      trace: seq<seq<Ctx>>)
    requires Rooted(ctx) && IsType(t) && White(g) && AllWhite(gap) && Stops(rest)
    ensures ReadListBegin(At(g + Lay(gap, at, SepTokens(ctx) + ListHeadTokens(t, n)) + rest, ctx, trace))
         == Read(Done(JList(t, n)), At(SkipSpace(rest), ctx + [InList], trace + ListHeadTrace(ctx)))
  {
    hide ParseOpen, ReadTypeName, ParseI64, Name, FormatInt, Lay, Lead, Stops, Separator, SkipSpace, SepTokens;
    var p, h := at + |SepTokens(ctx)|, SepGap(gap, at, ctx);
    SepLaid(g, gap, at, ctx, ListHeadTokens(t, n), rest);
    ListHeadLaid(t, n, gap, p, rest);
    var count := gap(p + 2) + (FormatInt(n) + (gap(p + 3) + rest));
    var name := gap(p) + (Name(t) + (gap(p + 1) + ([COMMA] + count)));
    OpenOf(g, h, LBRACKET, ListFirst, name, ctx, trace);
    var inner, inList := ctx + [ListFirst], ctx + [InList];
    PostOf(ctx, ListFirst);
    PostOf(ctx, InList);
    ListSeparators(ctx);
    NoLead(gap(p), inner, Name(t) + (gap(p + 1) + ([COMMA] + count)));
    ReadTypeNameOf(t, gap(p), [], gap(p + 1) + ([COMMA] + count), inner, trace + [inner]);
    SkipTo(gap(p + 1), [COMMA] + count);
    StopsAfter(gap(p + 3), rest);
    NoLead(gap(p + 2), inList, FormatInt(n) + (gap(p + 3) + rest));
    ParseI64Of(n, [], gap(p + 2), gap(p + 3) + rest, inList, trace + [inner] + [inList]);
    SkipWhite(gap(p + 3), rest);
    assert trace + [inner] + [inList] + [inList] == trace + ListHeadTrace(ctx);
  }

  lemma ListSeparators(ctx: seq<Ctx>)
    ensures Separator(Top(ctx + [ListFirst])) == [] && Separator(Top(ctx + [InList])) == [COMMA]
    ensures Separator(Top(ctx + [ObjectFirst])) == [] && Separator(Top(ctx + [NextValue])) == [COLON]
    ensures Separator(Top(ctx + [NextKey])) == [COMMA]
    ensures AfterValue(ListFirst) == InList && AfterValue(InList) == InList
    ensures AfterValue(ObjectFirst) == NextValue && AfterValue(NextValue) == NextKey && AfterValue(NextKey) == NextValue
  {
  }

  lemma ListHeadLaid(t: Byte, n: int, gap: Gaps, p: nat, rest: seq<Byte>)
    ensures Lay(gap, p, ListHeadTokens(t, n)) + rest
         == [LBRACKET] + (gap(p) + (Name(t) + (gap(p + 1) + ([COMMA] + (gap(p + 2) + (FormatInt(n)
              + (gap(p + 3) + rest)))))))
  {
    hide Lay, Name, FormatInt;
    FourLaid(Tok([LBRACKET]), Tok(Name(t)), Tok([COMMA]), Tok(FormatInt(n)), [], gap, p, rest);
    assert [Tok([LBRACKET]), Tok(Name(t)), Tok([COMMA]), Tok(FormatInt(n))] + [] == ListHeadTokens(t, n);
    NothingLaid(gap, p + 4, rest);
  }

  lemma NothingLaid(gap: Gaps, at: nat, rest: seq<Byte>)
    ensures Lay(gap, at, []) + rest == rest
  {
  }

  lemma FourLaid(a: Token, b: Token, c: Token, d: Token, more: seq<Token>, gap: Gaps, p: nat, rest: seq<Byte>)
    ensures Lay(gap, p, [a, b, c, d] + more) + rest
         == a.bytes + (gap(p) + (b.bytes + (gap(p + 1) + (c.bytes + (gap(p + 2) + (d.bytes
              + (gap(p + 3) + (Lay(gap, p + 4, more) + rest))))))))
  {
    hide Lay;
    assert [a, b, c, d] + more == [a] + ([b] + ([c] + ([d] + more)));
    LayCons(gap, p, a, [b] + ([c] + ([d] + more)), rest);
    LayCons(gap, p + 1, b, [c] + ([d] + more), rest);
    LayCons(gap, p + 2, c, [d] + more, rest);
    LayCons(gap, p + 3, d, more, rest);
  }

  /** A map header, likewise; what follows the brace is left as it is. */
  lemma ReadMapBeginOf(kt: Byte, vt: Byte, n: I64, g: seq<Byte>, gap: Gaps, at: nat, rest: seq<Byte>, ctx: seq<Ctx>,
      trace: seq<seq<Ctx>>)
    requires Rooted(ctx) && IsType(kt) && IsType(vt) && White(g) && AllWhite(gap)
    ensures var last := at + |SepTokens(ctx)| + 7;
      ReadMapBegin(At(g + Lay(gap, at, SepTokens(ctx) + MapHeadTokens(kt, vt, n)) + rest, ctx, trace))
        == Read(Done(JMap(kt, vt, n)), At(gap(last) + rest, ctx + [InList] + [ObjectFirst], trace + MapHeadTrace(ctx)))
  {
    hide ParseOpen, ReadTypeName, ReadMapSize, Name, FormatInt, Lay, Lead, Separator, SkipSpace, SepTokens;
    var p, h := at + |SepTokens(ctx)|, SepGap(gap, at, ctx);
    var inner, inList := ctx + [ListFirst], ctx + [InList];
    SepLaid(g, gap, at, ctx, MapHeadTokens(kt, vt, n), rest);
    MapHeadLaid(kt, vt, n, gap, p, rest);
    var sizes := SizeText(vt, n, gap, p + 2, rest);
    var name := gap(p) + (Name(kt) + (gap(p + 1) + ([COMMA] + sizes)));
    OpenOf(g, h, LBRACKET, ListFirst, name, ctx, trace);
    PostOf(ctx, ListFirst);
    ListSeparators(ctx);
    NoLead(gap(p), inner, Name(kt) + (gap(p + 1) + ([COMMA] + sizes)));
    ReadTypeNameOf(kt, gap(p), [], gap(p + 1) + ([COMMA] + sizes), inner, trace + [inner]);
    SkipTo(gap(p + 1), [COMMA] + sizes);
    ReadMapSizeOf(kt, vt, n, gap, p + 2, rest, ctx, trace + [inner] + [inList]);
    assert trace + [inner] + [inList] + [inList, inList, inList + [ObjectFirst]] == trace + MapHeadTrace(ctx);
  }

  /** The text of a map header after its first comma. */
  function SizeText(vt: Byte, n: int, gap: Gaps, q: nat, rest: seq<Byte>): seq<Byte> {
    gap(q) + (Name(vt) + (gap(q + 1) + ([COMMA] + (gap(q + 2) + (FormatInt(n) + (gap(q + 3)
      + ([COMMA] + (gap(q + 4) + ([LBRACE] + (gap(q + 5) + rest))))))))))
  }

  lemma MapHeadLaid(kt: Byte, vt: Byte, n: int, gap: Gaps, p: nat, rest: seq<Byte>)
    ensures Lay(gap, p, MapHeadTokens(kt, vt, n)) + rest
         == [LBRACKET] + (gap(p) + (Name(kt) + (gap(p + 1) + ([COMMA] + SizeText(vt, n, gap, p + 2, rest)))))
  {
    hide Lay, Name, FormatInt;
    var more := [Tok([COMMA]), Tok(FormatInt(n)), Tok([COMMA]), Tok([LBRACE])];
    FourLaid(Tok([LBRACKET]), Tok(Name(kt)), Tok([COMMA]), Tok(Name(vt)), more, gap, p, rest);
    FourLaid(Tok([COMMA]), Tok(FormatInt(n)), Tok([COMMA]), Tok([LBRACE]), [], gap, p + 4, rest);
    assert [Tok([LBRACKET]), Tok(Name(kt)), Tok([COMMA]), Tok(Name(vt))] + more == MapHeadTokens(kt, vt, n);
    assert more + [] == more;
    NothingLaid(gap, p + 8, rest);
  }

  lemma ReadMapSizeOf(kt: Byte, vt: Byte, n: I64, gap: Gaps, q: nat, rest: seq<Byte>, ctx: seq<Ctx>,
      trace: seq<seq<Ctx>>)
    requires Rooted(ctx) && IsType(kt) && IsType(vt) && AllWhite(gap)
    ensures
      var inList := ctx + [InList];
      ReadMapSize(kt, At([COMMA] + SizeText(vt, n, gap, q, rest), inList, trace))
        == Read(Done(JMap(kt, vt, n)),
             At(gap(q + 5) + rest, inList + [ObjectFirst], trace + [inList, inList, inList + [ObjectFirst]]))
  {
    hide ParseOpen, ReadTypeName, ParseI64, Name, FormatInt, Lead, Separator, SkipSpace;
    var inList := ctx + [InList];
    PostOf(ctx, InList);
    ListSeparators(ctx);
    var brace := gap(q + 4) + ([LBRACE] + (gap(q + 5) + rest));
    var count := gap(q + 2) + (FormatInt(n) + (gap(q + 3) + ([COMMA] + brace)));
    NoLead(gap(q), inList, Name(vt) + (gap(q + 1) + ([COMMA] + count)));
    ReadTypeNameOf(vt, [], gap(q), gap(q + 1) + ([COMMA] + count), inList, trace);
    SkipTo(gap(q + 1), [COMMA] + count);
    NoLead(gap(q + 2), inList, FormatInt(n) + (gap(q + 3) + ([COMMA] + brace)));
    StopsAfter(gap(q + 3), [COMMA] + brace);
    ParseI64Of(n, [], gap(q + 2), gap(q + 3) + ([COMMA] + brace), inList, trace + [inList]);
    SkipTo(gap(q + 3), [COMMA] + brace);
    NoLead(gap(q + 4), inList, [LBRACE] + (gap(q + 5) + rest));
    OpenOf([], gap(q + 4), LBRACE, ObjectFirst, gap(q + 5) + rest, inList, trace + [inList] + [inList]);
    assert trace + [inList] + [inList] + [inList + [ObjectFirst]] == trace + [inList, inList, inList + [ObjectFirst]];
  }

  /** The context of an object that is about to take its first member, or a later one. */
  function First(first: bool): Ctx { if first then ObjectFirst else NextKey }

  /** A field header, likewise. */
  lemma ReadFieldBeginOf(t: Byte, id: I16, first: bool, g: seq<Byte>, gap: Gaps, at: nat, rest: seq<Byte>,
      ctx: seq<Ctx>, trace: seq<seq<Ctx>>)
    requires Rooted(ctx) && IsType(t) && White(g) && AllWhite(gap)
    ensures ReadFieldBegin(At(g + Lay(gap, at, CommaTokens(first) + FieldHeadTokens(t, id)) + rest,
        ctx + [First(first)], trace))
      == Read(Done(JField(t, id)),
           At(SkipSpace(rest), ctx + [NextValue] + [NextValue], trace + FieldHeadTrace(ctx)))
  {
    hide ParseOpen, ReadTypeName, ParseI64, Name, FormatInt, Lay, Lead, Separator, SkipSpace, SepTokens, Quote;
    var c := ctx + [First(first)];
    PostOf(ctx, First(first));
    ListSeparators(ctx);
    SepOfFirst(first, ctx);
    var p, h := at + |SepTokens(c)|, SepGap(gap, at, c);
    SepLaid(g, gap, at, c, FieldHeadTokens(t, id), rest);
    FieldHeadLaid(t, id, gap, p, rest);
    var name := gap(p + 2) + (Name(t) + (gap(p + 3) + rest));
    var brace := gap(p) + ([COLON] + (gap(p + 1) + ([LBRACE] + name)));
    var text := g + Lay(gap, at, CommaTokens(first) + FieldHeadTokens(t, id)) + rest;
    assert text == Lead(g, c, h) + (NumberBody(id, AtKey(c)) + brace);
    QuoteBegins(FormatInt(id));
    NotClosed(g, c, h, Quote(FormatInt(id)) + brace);
    StopsAfter(gap(p), [COLON] + (gap(p + 1) + ([LBRACE] + name)));
    ParseI64Of(id, g, h, brace, c, trace);
    var atValue := ctx + [NextValue];
    SkipTo(gap(p), [COLON] + (gap(p + 1) + ([LBRACE] + name)));
    NoLead(gap(p + 1), atValue, [LBRACE] + name);
    OpenOf([], gap(p + 1), LBRACE, ObjectFirst, name, atValue, trace + [atValue]);
    var inner := atValue + [ObjectFirst];
    ListSeparators(atValue);
    PostOf(atValue, ObjectFirst);
    NoLead(gap(p + 2), inner, Name(t) + (gap(p + 3) + rest));
    ReadTypeNameOf(t, gap(p + 2), [], gap(p + 3) + rest, inner, trace + [atValue] + [inner]);
    SkipWhite(gap(p + 3), rest);
    assert trace + [atValue] + [inner] + [atValue + [NextValue]] == trace + FieldHeadTrace(ctx);
    assert ToI16(id) == id;
  }

  lemma QuoteBegins(b: seq<Byte>)
    ensures Quote(b) != [] && Quote(b)[0] == QUOTE
  {
    hide QuoteBody;
  }

  lemma SepOfFirst(first: bool, ctx: seq<Ctx>)
    ensures SepTokens(ctx + [First(first)]) == CommaTokens(first)
    ensures AtKey(ctx + [First(first)])
  {
  }

  /** The text of a member does not begin with a closing bracket, whatever white space comes first. */
  lemma NotClosed(g: seq<Byte>, c: seq<Ctx>, h: seq<Byte>, u: seq<Byte>)
    requires c != [] && AtKey(c) && White(g) && White(h) && u != [] && u[0] == QUOTE
    ensures var t := Lead(g, c, h) + u; t != [] && t[0] != RBRACE && t[0] != RBRACKET
  {
    var t := Lead(g, c, h) + u;
    if g != [] {
      assert t[0] == g[0];
    } else if Separator(Top(c)) != [] {
      assert t[0] == Separator(Top(c))[0];
    } else if h != [] {
      assert t[0] == h[0];
    } else {
      assert t == u;
    }
  }

  lemma FieldHeadLaid(t: Byte, id: int, gap: Gaps, p: nat, rest: seq<Byte>)
    ensures Lay(gap, p, FieldHeadTokens(t, id)) + rest
         == Quote(FormatInt(id)) + (gap(p) + ([COLON] + (gap(p + 1) + ([LBRACE] + (gap(p + 2) + (Name(t)
              + (gap(p + 3) + rest)))))))
  {
    hide Lay, Name, FormatInt, Quote;
    FourLaid(Tok(Quote(FormatInt(id))), Tok([COLON]), Tok([LBRACE]), Tok(Name(t)), [], gap, p, rest);
    assert [Tok(Quote(FormatInt(id))), Tok([COLON]), Tok([LBRACE]), Tok(Name(t))] + [] == FieldHeadTokens(t, id);
    NothingLaid(gap, p + 4, rest);
  }

  // ---------------------------------------------------------------- messages

  /** Whatever the stacks were, a message header comes back, with white space before and between its
      tokens. */
  lemma ReadMessageBeginOf(name: seq<Byte>, typeId: I8, seqId: I32, g: seq<Byte>, gap: Gaps, at: nat,
      rest: seq<Byte>, ctx: seq<Ctx>, trace: seq<seq<Ctx>>)
    requires White(g) && AllWhite(gap) && Stops(rest)
    ensures ReadMessageBegin(At(g + Lay(gap, at, MessageTokens(name, typeId, seqId)) + rest, ctx, trace))
         == Read(Done(JMessage(Sanitize(name), typeId, seqId)),
              At(SkipSpace(rest), [Toplevel, InList], trace + MessageHeadTrace()))
  {
    hide ParseOpen, ParseI64, ReadString, ReadMessageRest, FormatInt, Quote, Sanitize, Lay, Lead, Separator, SkipSpace;
    var top, inner, inList := [Toplevel], [Toplevel, ListFirst], [Toplevel, InList];
    MessageLaid(name, typeId, seqId, gap, at, rest);
    var numbers := NumbersText(typeId, seqId, gap, at + 4, rest);
    var strings := gap(at + 2) + (Quote(name) + (gap(at + 3) + ([COMMA] + numbers)));
    var version := gap(at) + (FormatInt(JSON_VERSION) + (gap(at + 1) + ([COMMA] + strings)));
    assert g + Lay(gap, at, MessageTokens(name, typeId, seqId)) + rest == g + ([LBRACKET] + version);
    TopSeparator();
    NoLead(g, top, [LBRACKET] + version);
    OpenOf(g, [], LBRACKET, ListFirst, version, top, trace);
    assert top + [ListFirst] == inner && top + [InList] == inList;
    PostOf(top, ListFirst);
    PostOf(top, InList);
    ListSeparators(top);
    NoLead(gap(at), inner, FormatInt(JSON_VERSION) + (gap(at + 1) + ([COMMA] + strings)));
    StopsAfter(gap(at + 1), [COMMA] + strings);
    ParseI64Of(JSON_VERSION, gap(at), [], gap(at + 1) + ([COMMA] + strings), inner, trace + [inner]);
    SkipTo(gap(at + 1), [COMMA] + strings);
    NoLead(gap(at + 2), inList, Quote(name) + (gap(at + 3) + ([COMMA] + numbers)));
    ReadStringOf(name, [], gap(at + 2), gap(at + 3) + ([COMMA] + numbers), inList, trace + [inner] + [inList]);
    SkipTo(gap(at + 3), [COMMA] + numbers);
    MessageRestOf(Sanitize(name), typeId, seqId, gap, at + 4, rest, trace + [inner] + [inList] + [inList]);
    assert trace + [inner] + [inList] + [inList] + [inList, inList] == trace + MessageHeadTrace();
  }

  lemma TopSeparator()
    ensures Separator(Top([Toplevel])) == []
  {}

  /** The text of a message header after its second comma. */
  function NumbersText(typeId: int, seqId: int, gap: Gaps, q: nat, rest: seq<Byte>): seq<Byte> {
    gap(q) + (FormatInt(typeId) + (gap(q + 1) + ([COMMA] + (gap(q + 2) + (FormatInt(seqId) + (gap(q + 3) + rest))))))
  }

  lemma MessageLaid(name: seq<Byte>, typeId: I8, seqId: I32, gap: Gaps, p: nat, rest: seq<Byte>)
    ensures Lay(gap, p, MessageTokens(name, typeId, seqId)) + rest
         == [LBRACKET] + (gap(p) + (FormatInt(JSON_VERSION) + (gap(p + 1) + ([COMMA] + (gap(p + 2) + (Quote(name)
              + (gap(p + 3) + ([COMMA] + NumbersText(typeId, seqId, gap, p + 4, rest)))))))))
  {
    hide Lay, Quote, FormatInt;
    var more := [Tok([COMMA]), Tok(FormatInt(typeId)), Tok([COMMA]), Tok(FormatInt(seqId))];
    FourLaid(Tok([LBRACKET]), Tok(FormatInt(JSON_VERSION)), Tok([COMMA]), Tok(Quote(name)), more, gap, p, rest);
    FourLaid(Tok([COMMA]), Tok(FormatInt(typeId)), Tok([COMMA]), Tok(FormatInt(seqId)), [], gap, p + 4, rest);
    assert [Tok([LBRACKET]), Tok(FormatInt(JSON_VERSION)), Tok([COMMA]), Tok(Quote(name))] + more
        == MessageTokens(name, typeId, seqId);
    assert more + [] == more;
    NothingLaid(gap, p + 8, rest);
  }

  lemma MessageRestOf(name: seq<Byte>, typeId: I8, seqId: I32, gap: Gaps, q: nat, rest: seq<Byte>,
      trace: seq<seq<Ctx>>)
    requires AllWhite(gap) && Stops(rest)
    ensures ReadMessageRest(name, At([COMMA] + NumbersText(typeId, seqId, gap, q, rest), [Toplevel, InList], trace))
         == Read(Done(JMessage(name, typeId, seqId)),
              At(SkipSpace(rest), [Toplevel, InList], trace + [[Toplevel, InList], [Toplevel, InList]]))
  {
    hide ParseI64, FormatInt, Lead, Separator, SkipSpace;
    var inList := [Toplevel, InList];
    PostOf([Toplevel], InList);
    ListSeparators([Toplevel]);
    assert [Toplevel] + [InList] == inList;
    var last := gap(q + 2) + (FormatInt(seqId) + (gap(q + 3) + rest));
    NoLead(gap(q), inList, FormatInt(typeId) + (gap(q + 1) + ([COMMA] + last)));
    StopsAfter(gap(q + 1), [COMMA] + last);
    ParseI64Of(typeId, [], gap(q), gap(q + 1) + ([COMMA] + last), inList, trace);
    SkipTo(gap(q + 1), [COMMA] + last);
    NoLead(gap(q + 2), inList, FormatInt(seqId) + (gap(q + 3) + rest));
    StopsAfter(gap(q + 3), rest);
    ParseI64Of(seqId, [], gap(q + 2), gap(q + 3) + rest, inList, trace + [inList]);
    SkipWhite(gap(q + 3), rest);
    assert trace + [inList] + [inList] == trace + [inList, inList];
  }
}
