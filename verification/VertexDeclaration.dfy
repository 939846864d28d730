/** Vertex shader declarations: the token macros and the token grammar of shared/include/d3d8types.h. */
module VertexDeclaration {
  import opened Prelude
  import opened Direct3DTypes

  const NOP: Dword := 0
  const END: Dword := 0xFFFF_FFFF

  /** The positions of the fields. */
  const TYPE: nat := 0x2000_0000
  const BIT28: nat := 0x1000_0000
  const BIT27: nat := 0x0800_0000
  const CONST_COUNT: nat := 0x0200_0000
  const EXT_COUNT: nat := 0x0100_0000
  const REG_IN: nat := 0x10_0000
  const DATA: nat := 0x1_0000

  const CONSTANT_BIAS: int := 96

  /** A token with its payload; NOP and END are not tokens of a declaration but punctuation. */
  datatype Token =
    | Stream(stream: nat)
    | StreamTess
    | Load(register: nat, format: nat)
    | Skip(dwords: nat)
    | SkipBytes(bytes: nat)
    | TessNormal(from: nat, to: nat)
    | TessUV(uv: nat)
    | Constants(address: int, vectors: seq<Dword>)
    | Extension(info: nat, extra: seq<Dword>)

  predicate WellFormed(t: Token) {
    match t
    case Stream(stream) => stream < 16
    case StreamTess => true
    case Load(register, format) => register < 32 && format < 256
    case Skip(dwords) => dwords < 16
    case SkipBytes(bytes) => bytes < 16
    case TessNormal(from, to) => from < 16 && to < 16
    case TessUV(uv) => uv < 16
    case Constants(address, vectors) => -96 <= address < 96 && |vectors| % 4 == 0 && |vectors| / 4 < 16
    case Extension(info, extra) => info < EXT_COUNT && |extra| < 32
  }

  /** The macros. Their fields do not overlap, so that joining them by `|` is adding them. */
  function HeadWord(t: Token): int {
    match t
    case Stream(stream) => 1 * TYPE + stream
    case StreamTess => 1 * TYPE + BIT28
    case Load(register, format) => 2 * TYPE + format * DATA + register
    case Skip(dwords) => 2 * TYPE + BIT28 + dwords * DATA
    case SkipBytes(bytes) => 2 * TYPE + BIT28 + BIT27 + bytes * DATA
    case TessNormal(from, to) => 3 * TYPE + from * REG_IN + to
    case TessUV(uv) => 3 * TYPE + BIT28 + uv
    case Constants(address, vectors) => 4 * TYPE + |vectors| / 4 * CONST_COUNT + (address + CONSTANT_BIAS)
    case Extension(info, extra) => 5 * TYPE + |extra| * EXT_COUNT + info
  }

  function Payload(t: Token): seq<Dword> {
    match t
    case Constants(_, vectors) => vectors
    case Extension(_, extra) => extra
    case _ => []
  }

  lemma HeadWordFits(t: Token)
    requires WellFormed(t)
    ensures 0 < HeadWord(t) < END
  {
  }

  function PrintToken(t: Token): seq<Dword>
    requires WellFormed(t)
  {
    HeadWordFits(t);
    [HeadWord(t)] + Payload(t)
  }

  /** How many words follow a head word before the next token. */
  function PayloadSize(word: Dword): nat {
    if word / TYPE == 4 then 4 * (word % TYPE / CONST_COUNT)
    else if word / TYPE == 5 then word % TYPE / EXT_COUNT
    else 0
  }

  /** The token of a head word, by the documented bit fields; None when a field that must be zero is not. */
  function TokenOf(word: Dword, payload: seq<Dword>): Option<Token> {
    var rest := word % TYPE;
    match word / TYPE
    case 1 => if rest == BIT28 then Some(StreamTess) else if rest < 16 then Some(Stream(rest)) else None
    case 2 => if rest < BIT28 then LoadOf(rest) else SkipOf(rest - BIT28)
    case 3 => if rest < BIT28 then NormalOf(rest) else if rest - BIT28 < 16 then Some(TessUV(rest - BIT28)) else None
    case 4 =>
      if rest % CONST_COUNT < 192 then Some(Constants(rest % CONST_COUNT - CONSTANT_BIAS, payload)) else None
    case 5 => Some(Extension(rest % EXT_COUNT, payload))
    case _ => None
  }

  function LoadOf(rest: nat): Option<Token> {
    if rest / DATA < 256 && rest % DATA < 32 then Some(Load(rest % DATA, rest / DATA)) else None
  }

  function SkipOf(rest: nat): Option<Token> {
    var field := if rest >= BIT27 then rest - BIT27 else rest;
    if field / DATA >= 16 || field % DATA != 0 then None
    else Some(if rest >= BIT27 then SkipBytes(field / DATA) else Skip(field / DATA))
  }

  function NormalOf(rest: nat): Option<Token> {
    if rest / REG_IN < 16 && rest % REG_IN < 16 then Some(TessNormal(rest / REG_IN, rest % REG_IN)) else None
  }

  /** What reads back from the head word of a token. */
  predicate Reads(t: Token) {
    && 0 < HeadWord(t) < END
    && PayloadSize(HeadWord(t)) == |Payload(t)| && TokenOf(HeadWord(t), Payload(t)) == Some(t)
  }

  lemma StreamReads(t: Token)
    requires WellFormed(t) && (t.Stream? || t.StreamTess?)
    ensures Reads(t)
  {
  }

  lemma DataReads(t: Token)
    requires WellFormed(t) && (t.Load? || t.Skip? || t.SkipBytes?)
    ensures Reads(t)
  {
  }

  lemma TessReads(t: Token)
    requires WellFormed(t) && (t.TessNormal? || t.TessUV?)
    ensures Reads(t)
  {
  }

  lemma PayloadReads(t: Token)
    requires WellFormed(t) && (t.Constants? || t.Extension?)
    ensures Reads(t)
  {
  }

  /** The macros' words read back field by field. */
  lemma TokenReads(t: Token)
    requires WellFormed(t)
    ensures Reads(t)
  {
    if t.Stream? || t.StreamTess? {
      StreamReads(t);
    } else if t.TessNormal? || t.TessUV? {
      TessReads(t);
    } else if t.Constants? || t.Extension? {
      PayloadReads(t);
    } else {
      DataReads(t);
    }
  }

  lemma TokenWrites(word: Dword, payload: seq<Dword>, t: Token)
    requires |payload| == PayloadSize(word) && TokenOf(word, payload) == Some(t)
    ensures WellFormed(t) && HeadWord(t) == word && Payload(t) == payload
  {
  }

  /** The tokens up to the end token; NOPs between tokens are ignored, and so is what follows the end. */
  function Parse(words: seq<Dword>): Option<seq<Token>>
    decreases |words|
  {
    if words == [] then None
    else if words[0] == END then Some([])
    else if words[0] == NOP then Parse(words[1..])
    else
      var n := PayloadSize(words[0]);
      if 1 + n > |words| then None else
      match TokenOf(words[0], words[1..1 + n])
      case None => None
      case Some(t) => Prefixed(t, Parse(words[1 + n..]))
  }

  function Prefixed(t: Token, later: Option<seq<Token>>): Option<seq<Token>> {
    if later.None? then None else Some([t] + later.value)
  }

  /** The first token of words that parse, and the parse of the words behind it. */
  lemma ParseStep(words: seq<Dword>) returns (t: Token, n: nat)
    requires Parse(words).Some? && words[0] != END && words[0] != NOP
    ensures n == PayloadSize(words[0]) && 1 + n <= |words|
    ensures TokenOf(words[0], words[1..1 + n]) == Some(t)
    ensures Parse(words[1 + n..]).Some? && Parse(words).value == [t] + Parse(words[1 + n..]).value
  {
    n := PayloadSize(words[0]);
    t := TokenOf(words[0], words[1..1 + n]).value;
  }

  /** The macros put their fields where the grammar has them: the type in the bits from 29 on, data types and counts
      of skipped words in those from 16 on, the input register of a normal in those from 20 on, the count of constants
      in those from 25 on, and the count of extra words in those from 24 on. */
  lemma FieldsLie(t: Token)
    requires WellFormed(t)
    ensures
      var w := HeadWord(t);
      match t
      case Stream(stream) => w == 0x2000_0000 + stream
      case StreamTess => w == 0x3000_0000
      case Load(register, format) => w == 0x4000_0000 + 0x1_0000 * format + register
      case Skip(dwords) => w == 0x5000_0000 + 0x1_0000 * dwords
      case SkipBytes(bytes) => w == 0x5800_0000 + 0x1_0000 * bytes
      case TessNormal(from, to) => w == 0x6000_0000 + 0x10_0000 * from + to
      case TessUV(uv) => w == 0x7000_0000 + uv
      case Constants(address, vectors) => w == 0x8000_0000 + 0x0200_0000 * (|vectors| / 4) + (address + 96)
      case Extension(info, extra) => w == 0xA000_0000 + 0x0100_0000 * |extra| + info
  {
  }

  // Round trips.

  function Nops(n: nat): (s: seq<Dword>)
    ensures |s| == n
  {
    seq(n, _ => NOP)
  }

  /** A token, and the NOPs in front of it. */
  datatype Item = Item(nops: nat, token: Token)

  predicate ItemsWellFormed(items: seq<Item>) {
    items == [] || (WellFormed(items[0].token) && ItemsWellFormed(items[1..]))
  }

  function Tokens(items: seq<Item>): seq<Token> {
    if items == [] then [] else [items[0].token] + Tokens(items[1..])
  }

  /** A declaration with its NOPs, the last of them in front of the end token. */
  function Print(items: seq<Item>, lastNops: nat): seq<Dword>
    requires ItemsWellFormed(items)
  {
    if items == [] then Nops(lastNops) + [END]
    else Nops(items[0].nops) + (PrintToken(items[0].token) + Print(items[1..], lastNops))
  }

  lemma {:induction false} ParseSkipsNops(n: nat, rest: seq<Dword>)
    ensures Parse(Nops(n) + rest) == Parse(rest)
  {
    var words := Nops(n) + rest;
    if n == 0 {
      assert words == rest;
    } else {
      assert words[1..] == Nops(n - 1) + rest;
      ParseSkipsNops(n - 1, rest);
    }
  }

  lemma ParseTakesToken(t: Token, rest: seq<Dword>)
    requires WellFormed(t)
    ensures Parse(PrintToken(t) + rest) == Prefixed(t, Parse(rest))
  {
    TokenReads(t);
    var words := PrintToken(t) + rest;
    assert words[1..1 + |Payload(t)|] == Payload(t);
    assert words[1 + |Payload(t)|..] == rest;
  }

  /** Printing with the macros and parsing by the documented fields gives the tokens back, whatever their payload
      words are, wherever NOPs stand between tokens, and whatever follows the end token. */
  lemma {:induction false} PrintParse(items: seq<Item>, lastNops: nat, trailing: seq<Dword>)
    requires ItemsWellFormed(items)
    ensures Parse(Print(items, lastNops) + trailing) == Some(Tokens(items))
  {
    if items == [] {
      Regroup(Nops(lastNops), [END], trailing);
      ParseSkipsNops(lastNops, [END] + trailing);
    } else {
      var t, later := items[0].token, Print(items[1..], lastNops);
      Regroup(Nops(items[0].nops), PrintToken(t) + later, trailing);
      ParseSkipsNops(items[0].nops, PrintToken(t) + later + trailing);
      Regroup(PrintToken(t), later, trailing);
      ParseTakesToken(t, later + trailing);
      PrintParse(items[1..], lastNops, trailing);
    }
  }

  /** Whatever parses is a printed declaration: parsing accepts nothing else, and loses nothing but NOPs and what
      follows the end token. */
  lemma {:induction false} ParsePrint(words: seq<Dword>) returns (items: seq<Item>, lastNops: nat, trailing: seq<Dword>)
    requires Parse(words).Some?
    ensures ItemsWellFormed(items) && Tokens(items) == Parse(words).value
    ensures words == Print(items, lastNops) + trailing
    decreases |words|
  {
    if words[0] == END {
      items, lastNops, trailing := [], 0, words[1..];
    } else if words[0] == NOP {
      items, lastNops, trailing := ParsePrint(words[1..]);
      items, lastNops := OneNopMore(items, lastNops, trailing, words);
    } else {
      var t, n := ParseStep(words);
      TokenWrites(words[0], words[1..1 + n], t);
      var later;
      later, lastNops, trailing := ParsePrint(words[1 + n..]);
      items := [Item(0, t)] + later;
      assert items[1..] == later;
      assert words == PrintToken(t) + words[1 + n..];
      Regroup(PrintToken(t), Print(later, lastNops), trailing);
      assert Nops(0) + (PrintToken(t) + Print(later, lastNops)) == PrintToken(t) + Print(later, lastNops);
    }
  }

  lemma OneNopMore(items: seq<Item>, lastNops: nat, trailing: seq<Dword>, words: seq<Dword>)
    returns (items': seq<Item>, lastNops': nat)
    requires ItemsWellFormed(items)
    requires words != [] && words[0] == NOP && words[1..] == Print(items, lastNops) + trailing
    ensures ItemsWellFormed(items') && Tokens(items') == Tokens(items)
    ensures words == Print(items', lastNops') + trailing
  {
    if items == [] {
      items', lastNops' := [], lastNops + 1;
      assert Nops(lastNops + 1) == [NOP] + Nops(lastNops);
      Regroup([NOP], Nops(lastNops), [END]);
    } else {
      var first := items[0].(nops := items[0].nops + 1);
      items', lastNops' := [first] + items[1..], lastNops;
      assert items'[1..] == items[1..];
      assert Nops(first.nops) == [NOP] + Nops(items[0].nops);
      Regroup([NOP], Nops(items[0].nops), PrintToken(first.token) + Print(items[1..], lastNops));
    }
    assert words == [NOP] + words[1..];
    Regroup([NOP], Print(items, lastNops), trailing);
  }
}
