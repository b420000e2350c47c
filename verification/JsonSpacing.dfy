/** JSON texts of a value with white space between their tokens. */
module JsonSpacing {
  import opened Words
  import opened Values
  import opened JsonText
  import opened JsonWire
  import opened JsonTrees

  /** The white space of section 2 of RFC 8259. */
  predicate White(g: seq<Byte>) {
    forall i :: 0 <= i < |g| ==> g[i] == 0x20 || g[i] == 0x09 || g[i] == 0x0A || g[i] == 0x0D
  }

  /** What stands after each token of a text. */
  type Gaps = nat -> seq<Byte>

  ghost predicate AllWhite(gap: Gaps) { forall i :: White(gap(i)) }

  /** No white space at all, as the writer leaves it. */
  const NO_GAPS: Gaps := i => []

  /** A token, and whether the reader wants the next one right after it. */
  datatype Token = Token(bytes: seq<Byte>, tight: bool)

  function Tok(bytes: seq<Byte>): Token { Token(bytes, false) }

  /** The tokens from position at on, each with its gap. */
  function Lay(gap: Gaps, at: nat, toks: seq<Token>): seq<Byte>
    decreases |toks|
  {
    if toks == [] then [] else toks[0].bytes + (gap(at) + Lay(gap, at + 1, toks[1..]))
  }

  predicate Tight(gap: Gaps, at: nat, toks: seq<Token>) {
    forall i :: 0 <= i < |toks| && toks[i].tight ==> gap(at + i) == []
  }

  // ---------------------------------------------------------------- the tokens of a value

  /** A struct without fields is the one that allows no white space inside it. */
  function ValueTokens(v: Value, key: bool): (toks: seq<Token>)
    ensures toks != []
    decreases v, 1
  {
    match v
    case VStruct(fields) => [Token([LBRACE], fields == [])] + FieldsTokens(fields, true) + [Tok([RBRACE])]
    case VMap(kt, vt, entries) =>
      MapHeadTokens(kt, vt, |entries|) + EntriesTokens(entries, true) + [Tok([RBRACE]), Tok([RBRACKET])]
    case VSet(t, members) => ListHeadTokens(t, |members|) + AllTokens(members) + [Tok([RBRACKET])]
    case VList(t, elems) => ListHeadTokens(t, |elems|) + AllTokens(elems) + [Tok([RBRACKET])]
    case _ => [Tok(Body(v, key))]
  }

  function ListHeadTokens(t: Byte, n: int): seq<Token> {
    [Tok([LBRACKET]), Tok(Name(t)), Tok([COMMA]), Tok(FormatInt(n))]
  }

  function MapHeadTokens(kt: Byte, vt: Byte, n: int): seq<Token> {
    [Tok([LBRACKET]), Tok(Name(kt)), Tok([COMMA]), Tok(Name(vt)), Tok([COMMA]), Tok(FormatInt(n)), Tok([COMMA]),
      Tok([LBRACE])]
  }

  function FieldHeadTokens(t: Byte, id: int): seq<Token> {
    [Tok(Quote(FormatInt(id))), Tok([COLON]), Tok([LBRACE]), Tok(Name(t))]
  }

  function CommaTokens(first: bool): seq<Token> { if first then [] else [Tok([COMMA])] }

  function FieldsTokens(fields: seq<Field>, first: bool): seq<Token>
    decreases fields, 0
  {
    if fields == [] then [] else CommaTokens(first) + FieldTokens(fields[0]) + FieldsTokens(fields[1..], false)
  }

  function FieldTokens(f: Field): seq<Token>
    decreases f, 0
  {
    FieldHeadTokens(TypeOf(f.value), f.id) + ([Tok([COLON])] + ValueTokens(f.value, false)) + [Tok([RBRACE])]
  }

  function AllTokens(vs: seq<Value>): seq<Token>
    decreases vs, 0
  {
    if vs == [] then [] else ([Tok([COMMA])] + ValueTokens(vs[0], false)) + AllTokens(vs[1..])
  }

  function EntriesTokens(entries: seq<Entry>, first: bool): seq<Token>
    decreases entries, 0
  {
    if entries == [] then [] else CommaTokens(first) + EntryTokens(entries[0]) + EntriesTokens(entries[1..], false)
  }

  function EntryTokens(e: Entry): seq<Token>
    decreases e, 0
  {
    ValueTokens(e.key, true) + ([Tok([COLON])] + ValueTokens(e.value, false))
  }

  /** The separator that the context calls for. */
  function SepTokens(ctx: seq<Ctx>): seq<Token>
    requires ctx != []
  {
    if Separator(Top(ctx)) == [] then [] else [Tok(Separator(Top(ctx)))]
  }

  function MessageTokens(name: seq<Byte>, typeId: I8, seqId: I32): seq<Token> {
    [Tok([LBRACKET]), Tok(FormatInt(JSON_VERSION)), Tok([COMMA]), Tok(Quote(name)), Tok([COMMA]),
      Tok(FormatInt(typeId)), Tok([COMMA]), Tok(FormatInt(seqId))]
  }

  // ---------------------------------------------------------------- taking a text apart

  lemma LayCons(gap: Gaps, at: nat, tok: Token, more: seq<Token>, rest: seq<Byte>)
    ensures Lay(gap, at, [tok] + more) + rest == tok.bytes + (gap(at) + (Lay(gap, at + 1, more) + rest))
  {
    LayHead(gap, at, [tok] + more);
    assert ([tok] + more)[1..] == more;
    hide Lay;
    Nest(tok.bytes, gap(at), Lay(gap, at + 1, more), rest);
  }

  lemma LayOne(gap: Gaps, at: nat, tok: Token, rest: seq<Byte>)
    ensures Lay(gap, at, [tok]) + rest == tok.bytes + (gap(at) + rest)
  {
    assert [tok][1..] == [];
  }

  lemma LayHead(gap: Gaps, at: nat, toks: seq<Token>)
    requires toks != []
    ensures Lay(gap, at, toks) == toks[0].bytes + (gap(at) + Lay(gap, at + 1, toks[1..]))
  {
  }

  lemma Nest(a: seq<Byte>, b: seq<Byte>, c: seq<Byte>, d: seq<Byte>)
    ensures (a + (b + c)) + d == a + (b + (c + d))
  {
  }

  lemma {:induction false} LayConcat(gap: Gaps, at: nat, a: seq<Token>, b: seq<Token>)
    ensures Lay(gap, at, a + b) == Lay(gap, at, a) + Lay(gap, at + |a|, b)
    decreases |a|
  {
    if a == [] {
      assert a + b == b;
      assert Lay(gap, at, a) == [];
    } else {
      hide Lay;
      LayConcat(gap, at + 1, a[1..], b);
      assert (a + b)[1..] == a[1..] + b;
      LayHead(gap, at, a + b);
      LayHead(gap, at, a);
      Nest(a[0].bytes, gap(at), Lay(gap, at + 1, a[1..]), Lay(gap, at + |a|, b));
    }
  }

  lemma TightConcat(gap: Gaps, at: nat, a: seq<Token>, b: seq<Token>)
    ensures Tight(gap, at, a + b) <==> Tight(gap, at, a) && Tight(gap, at + |a|, b)
  {
    var ab := a + b;
    if Tight(gap, at, ab) {
      forall i | 0 <= i < |a| && a[i].tight ensures gap(at + i) == [] { assert ab[i] == a[i]; }
      forall i | 0 <= i < |b| && b[i].tight ensures gap(at + |a| + i) == [] { assert ab[|a| + i] == b[i]; }
    }
  }

  /** The same, with what stands around the two parts. */
  lemma LayAround(g: seq<Byte>, gap: Gaps, at: nat, a: seq<Token>, b: seq<Token>, rest: seq<Byte>)
    ensures g + Lay(gap, at, a + b) + rest == g + Lay(gap, at, a) + (Lay(gap, at + |a|, b) + rest)
    ensures Tight(gap, at, a + b) <==> Tight(gap, at, a) && Tight(gap, at + |a|, b)
  {
    hide Lay, Tight;
    LayConcat(gap, at, a, b);
    TightConcat(gap, at, a, b);
  }

  // ---------------------------------------------------------------- the writer's own text

  /** Laid out without gaps a value is what the writer writes. */
  lemma {:induction false} WrittenValue(v: Value, key: bool, at: nat)
    ensures Lay(NO_GAPS, at, ValueTokens(v, key)) == Body(v, key)
    decreases v, 1
  {
    match v
    case VStruct(fields) => WrittenStruct(fields, at);
    case VMap(kt, vt, entries) => WrittenMap(kt, vt, entries, at);
    case VSet(t, members) => WrittenList(t, members, at);
    case VList(t, elems) => WrittenList(t, elems, at);
    case _ => WrittenOne(Tok(Body(v, key)), at);
  }

  lemma Between(a: seq<Token>, b: seq<Token>, c: seq<Token>, at: nat)
    ensures Lay(NO_GAPS, at, a + b + c)
         == Lay(NO_GAPS, at, a) + Lay(NO_GAPS, at + |a|, b) + Lay(NO_GAPS, at + |a| + |b|, c)
  {
    hide Lay;
    LayConcat(NO_GAPS, at, a + b, c);
    LayConcat(NO_GAPS, at, a, b);
  }

  lemma WrittenOne(t: Token, at: nat)
    ensures Lay(NO_GAPS, at, [t]) == t.bytes
  {
    assert [t][1..] == [];
  }

  lemma WrittenTwo(t: Token, u: Token, at: nat)
    ensures Lay(NO_GAPS, at, [t, u]) == t.bytes + u.bytes
  {
    assert [t, u] == [t] + [u];
    hide Lay;
    LayConcat(NO_GAPS, at, [t], [u]);
    WrittenOne(t, at);
    WrittenOne(u, at + 1);
  }

  lemma WrittenFour(t: Token, u: Token, v: Token, w: Token, at: nat)
    ensures Lay(NO_GAPS, at, [t, u, v, w]) == t.bytes + u.bytes + v.bytes + w.bytes
  {
    hide Lay;
    assert [t, u] + [v, w] == [t, u, v, w];
    LayConcat(NO_GAPS, at, [t, u], [v, w]);
    WrittenTwo(t, u, at);
    WrittenTwo(v, w, at + 2);
    Associate(t.bytes + u.bytes, v.bytes, w.bytes);
  }

  lemma Associate(a: seq<Byte>, b: seq<Byte>, c: seq<Byte>)
    ensures a + b + c == a + (b + c)
  {
  }

  lemma FourAfter(x: seq<Byte>, a: seq<Byte>, b: seq<Byte>, c: seq<Byte>, d: seq<Byte>)
    ensures x + a + b + c + d == x + (a + b + c + d)
  {
  }

  lemma WrittenMapHead(kt: Byte, vt: Byte, n: int, at: nat)
    ensures Lay(NO_GAPS, at, MapHeadTokens(kt, vt, n)) == MapHead(kt, vt, n)
  {
    hide Lay, Name, FormatInt;
    var toks := MapHeadTokens(kt, vt, n);
    LayConcat(NO_GAPS, at, toks[..4], toks[4..]);
    assert toks[..4] == [toks[0], toks[1], toks[2], toks[3]] && toks[4..] == [toks[4], toks[5], toks[6], toks[7]];
    assert toks[..4] + toks[4..] == toks;
    WrittenFour(toks[0], toks[1], toks[2], toks[3], at);
    WrittenFour(toks[4], toks[5], toks[6], toks[7], at + 4);
    FourAfter([LBRACKET] + Name(kt) + [COMMA] + Name(vt), [COMMA], FormatInt(n), [COMMA], [LBRACE]);
  }

  lemma {:induction false} WrittenStruct(fields: seq<Field>, at: nat)
    ensures Lay(NO_GAPS, at, [Token([LBRACE], fields == [])] + FieldsTokens(fields, true) + [Tok([RBRACE])])
         == [LBRACE] + FieldsBody(fields, true) + [RBRACE]
    decreases fields, 1
  {
    hide Lay, FieldsTokens, FieldsBody;
    WrittenFields(fields, true, at + 1);
    Between([Token([LBRACE], fields == [])], FieldsTokens(fields, true), [Tok([RBRACE])], at);
    WrittenOne(Token([LBRACE], fields == []), at);
    WrittenOne(Tok([RBRACE]), at + 1 + |FieldsTokens(fields, true)|);
  }

  lemma {:induction false} WrittenMap(kt: Byte, vt: Byte, entries: seq<Entry>, at: nat)
    ensures Lay(NO_GAPS, at,
        MapHeadTokens(kt, vt, |entries|) + EntriesTokens(entries, true) + [Tok([RBRACE]), Tok([RBRACKET])])
      == MapHead(kt, vt, |entries|) + EntriesBody(entries, true) + [RBRACE] + [RBRACKET]
    decreases entries, 1
  {
    hide Lay, EntriesTokens, EntriesBody, MapHead;
    WrittenEntries(entries, true, at + 8);
    Between(MapHeadTokens(kt, vt, |entries|), EntriesTokens(entries, true), [Tok([RBRACE]), Tok([RBRACKET])], at);
    WrittenMapHead(kt, vt, |entries|, at);
    WrittenTwo(Tok([RBRACE]), Tok([RBRACKET]), at + 8 + |EntriesTokens(entries, true)|);
    Associate(MapHead(kt, vt, |entries|) + EntriesBody(entries, true), [RBRACE], [RBRACKET]);
  }

  lemma {:induction false} WrittenList(t: Byte, vs: seq<Value>, at: nat)
    ensures Lay(NO_GAPS, at, ListHeadTokens(t, |vs|) + AllTokens(vs) + [Tok([RBRACKET])])
         == ListHead(t, |vs|) + AllBody(vs) + [RBRACKET]
    decreases vs, 1
  {
    hide Lay, Name, FormatInt, AllTokens, AllBody;
    var toks := ListHeadTokens(t, |vs|);
    WrittenAll(vs, at + 4);
    Between(toks, AllTokens(vs), [Tok([RBRACKET])], at);
    WrittenFour(toks[0], toks[1], toks[2], toks[3], at);
    WrittenOne(Tok([RBRACKET]), at + 4 + |AllTokens(vs)|);
  }

  lemma WrittenComma(first: bool, at: nat)
    ensures Lay(NO_GAPS, at, CommaTokens(first)) == Comma(first)
  {
    if !first { WrittenOne(Tok([COMMA]), at); }
  }

  lemma FieldFirst(fields: seq<Field>, first: bool)
    requires fields != []
    ensures FieldsTokens(fields, first)
         == CommaTokens(first) + FieldTokens(fields[0]) + FieldsTokens(fields[1..], false)
    ensures FieldsBody(fields, first) == Comma(first) + FieldBody(fields[0]) + FieldsBody(fields[1..], false)
  {
    hide FieldTokens, FieldBody, CommaTokens, Comma;
  }

  lemma NoFields(first: bool, at: nat)
    ensures FieldsTokens([], first) == [] && Lay(NO_GAPS, at, []) == FieldsBody([], first)
  {
  }

  lemma {:induction false} WrittenFields(fields: seq<Field>, first: bool, at: nat)
    ensures Lay(NO_GAPS, at, FieldsTokens(fields, first)) == FieldsBody(fields, first)
    decreases fields, 0
  {
    hide *;
    if fields == [] {
      NoFields(first, at);
    } else {
      var comma, one := CommaTokens(first), FieldTokens(fields[0]);
      FieldFirst(fields, first);
      Between(comma, one, FieldsTokens(fields[1..], false), at);
      WrittenComma(first, at);
      WrittenField(fields[0], at + |comma|);
      WrittenFields(fields[1..], false, at + |comma| + |one|);
    }
  }

  lemma {:induction false} WrittenField(f: Field, at: nat)
    ensures Lay(NO_GAPS, at, FieldTokens(f)) == FieldBody(f)
    decreases f, 0
  {
    hide Lay, ValueTokens, Body, Name, FormatInt, Quote;
    var toks := FieldHeadTokens(TypeOf(f.value), f.id);
    var value := [Tok([COLON])] + ValueTokens(f.value, false);
    Between(toks, value, [Tok([RBRACE])], at);
    WrittenFour(toks[0], toks[1], toks[2], toks[3], at);
    WrittenAfter(COLON, f.value, at + 4);
    WrittenOne(Tok([RBRACE]), at + 4 + |value|);
    var head := FieldHead(TypeOf(f.value), f.id);
    assert head + ([COLON] + Body(f.value, false)) + [RBRACE] == head + [COLON] + Body(f.value, false) + [RBRACE];
  }

  lemma {:induction false} WrittenAfter(sep: Byte, v: Value, at: nat)
    ensures Lay(NO_GAPS, at, [Tok([sep])] + ValueTokens(v, false)) == [sep] + Body(v, false)
    decreases v, 2
  {
    hide Lay;
    LayConcat(NO_GAPS, at, [Tok([sep])], ValueTokens(v, false));
    WrittenOne(Tok([sep]), at);
    WrittenValue(v, false, at + 1);
  }

  lemma {:induction false} WrittenAll(vs: seq<Value>, at: nat)
    ensures Lay(NO_GAPS, at, AllTokens(vs)) == AllBody(vs)
    decreases vs, 0
  {
    if vs != [] {
      hide Lay, ValueTokens, Body;
      var value := [Tok([COMMA])] + ValueTokens(vs[0], false);
      LayConcat(NO_GAPS, at, value, AllTokens(vs[1..]));
      WrittenAfter(COMMA, vs[0], at);
      WrittenAll(vs[1..], at + |value|);
    }
  }

  lemma EntryFirst(entries: seq<Entry>, first: bool)
    requires entries != []
    ensures EntriesTokens(entries, first)
         == CommaTokens(first) + EntryTokens(entries[0]) + EntriesTokens(entries[1..], false)
    ensures EntriesBody(entries, first) == Comma(first) + EntryBody(entries[0]) + EntriesBody(entries[1..], false)
  {
    hide EntryTokens, EntryBody, CommaTokens, Comma;
  }

  lemma NoEntries(first: bool, at: nat)
    ensures EntriesTokens([], first) == [] && Lay(NO_GAPS, at, []) == EntriesBody([], first)
  {
  }

  lemma {:induction false} WrittenEntries(entries: seq<Entry>, first: bool, at: nat)
    ensures Lay(NO_GAPS, at, EntriesTokens(entries, first)) == EntriesBody(entries, first)
    decreases entries, 0
  {
    hide *;
    if entries == [] {
      NoEntries(first, at);
    } else {
      var comma, one := CommaTokens(first), EntryTokens(entries[0]);
      EntryFirst(entries, first);
      Between(comma, one, EntriesTokens(entries[1..], false), at);
      WrittenComma(first, at);
      WrittenEntry(entries[0], at + |comma|);
      WrittenEntries(entries[1..], false, at + |comma| + |one|);
    }
  }

  lemma {:induction false} WrittenEntry(e: Entry, at: nat)
    ensures Lay(NO_GAPS, at, EntryTokens(e)) == EntryBody(e)
    decreases e, 0
  {
    hide Lay, ValueTokens, Body;
    LayConcat(NO_GAPS, at, ValueTokens(e.key, true), [Tok([COLON])] + ValueTokens(e.value, false));
    WrittenValue(e.key, true, at);
    WrittenAfter(COLON, e.value, at + |ValueTokens(e.key, true)|);
  }

  lemma WrittenMessage(name: seq<Byte>, typeId: I8, seqId: I32, at: nat)
    ensures Lay(NO_GAPS, at, MessageTokens(name, typeId, seqId)) == MessageHead(name, typeId, seqId)
  {
    hide Lay, Quote, FormatInt;
    var toks := MessageTokens(name, typeId, seqId);
    LayConcat(NO_GAPS, at, toks[..4], toks[4..]);
    assert toks[..4] == [toks[0], toks[1], toks[2], toks[3]] && toks[4..] == [toks[4], toks[5], toks[6], toks[7]];
    assert toks[..4] + toks[4..] == toks;
    WrittenFour(toks[0], toks[1], toks[2], toks[3], at);
    WrittenFour(toks[4], toks[5], toks[6], toks[7], at + 4);
    FourAfter([LBRACKET] + FormatInt(JSON_VERSION) + [COMMA] + Quote(name), [COMMA], FormatInt(typeId), [COMMA],
      FormatInt(seqId));
  }
}
