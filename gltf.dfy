/**
 * The glTF loader's JSON symbol reader: a cursor over the file's
 * characters that reads one symbol at a time (string, number, boolean,
 * null, one-character operator, end of file or error), and the two
 * skipping routines built on it, plus the document-start check and the
 * node-transform rule of the loader.
 *
 * The stream is `input` with a cursor `pos` and a failure flag `fail`: a
 * read at the end of the input sets `fail` and leaves the character
 * variable unchanged, and once `fail` is set every read fails, as with a
 * C++ input stream that has reached end of file.
 */
module SgGltf {
  import opened Wrappers

  datatype Error = FileExcept

  /** The kind of a symbol. */
  datatype Kind = Str | Num | Bool | Null | Op | End | Err

  /** `operator!`: the symbol ends a parse. */
  predicate Halting(k: Kind)
  {
    k == End || k == Err
  }

  // ---------------------------------------------------------------------
  // Character classes (the "C" locale)

  predicate IsSpace(c: char)
  {
    c == ' ' || '\t' <= c <= '\r'
  }

  predicate IsDigit(c: char)
  {
    '0' <= c <= '9'
  }

  predicate IsXDigit(c: char)
  {
    IsDigit(c) || 'a' <= c <= 'f' || 'A' <= c <= 'F'
  }

  predicate IsLower(c: char)
  {
    'a' <= c <= 'z'
  }

  /** A character that starts a number. */
  predicate NumStart(c: char)
  {
    c == '-' || c == '+' || IsDigit(c)
  }

  /** A character that continues a number. */
  predicate NumChar(c: char)
  {
    IsXDigit(c) || c == '.' || c == '-' || c == '+'
  }

  predicate IsOpChar(c: char)
  {
    c == '{' || c == '}' || c == '[' || c == ']' || c == ':' || c == ','
  }

  // ---------------------------------------------------------------------
  // The symbol reader, as functions of the stream state

  /** A symbol and the stream state after it. */
  datatype Lexed = Lexed(kind: Kind, tokens: seq<char>, pos: nat, fail: bool)

  /** The first non-space position at or after `p`. */
  function SkipSpace(input: seq<char>, p: nat): (q: nat)
    requires p <= |input|
    ensures p <= q <= |input|
    ensures q < |input| ==> !IsSpace(input[q])
    decreases |input| - p
  {
    if p == |input| || !IsSpace(input[p]) then p else SkipSpace(input, p + 1)
  }

  /** A string's characters after its opening quote, `acc` read so far. */
  function LexStr(input: seq<char>, q: nat, acc: seq<char>): (r: Lexed)
    requires q <= |input|
    ensures q <= r.pos <= |input|
    ensures r.kind == Str || r.kind == Err
    decreases |input| - q
  {
    if q == |input| then Lexed(Err, acc, q, true)
    else if input[q] == '"' then Lexed(Str, acc, q + 1, false)
    else if input[q] == '\\' then
      if q + 1 == |input| then Lexed(Err, acc + ['\\'], q + 1, true)
      else if input[q + 1] != '"' && input[q + 1] != '\\' then Lexed(Err, acc, q + 2, false)
      else LexStr(input, q + 2, acc + [input[q + 1]])
    else LexStr(input, q + 1, acc + [input[q]])
  }

  /** A number's characters after its first, `acc` read so far; the end of
      the stream ends the number. */
  function LexNum(input: seq<char>, q: nat, acc: seq<char>): (r: Lexed)
    requires q <= |input|
    ensures q <= r.pos <= |input| && r.kind == Num
    decreases |input| - q
  {
    if q == |input| then Lexed(Num, acc, q, true)
    else if NumChar(input[q]) then LexNum(input, q + 1, acc + [input[q]])
    else Lexed(Num, acc, q, false)
  }

  /** A run of lower-case letters after its first, `acc` read so far; the
      end of the stream ends the run. */
  function LexWord(input: seq<char>, q: nat, acc: seq<char>): (r: (seq<char>, nat, bool))
    requires q <= |input|
    ensures q <= r.1 <= |input|
    decreases |input| - q
  {
    if q == |input| then (acc, q, true)
    else if IsLower(input[q]) then LexWord(input, q + 1, acc + [input[q]])
    else (acc, q, false)
  }

  /** The kind of a letter run starting with `t`, `f` or `n`: only `true`
      (from `t`), `false` (from `f`) and `null` (from `n`) are valid. */
  function WordKind(w: seq<char>): Kind
  {
    if w == "true" || w == "false" then Bool
    else if w == "null" then Null
    else Err
  }

  /** `next()`: the symbol at the cursor. */
  function Lex(input: seq<char>, pos: nat, fail: bool): (r: Lexed)
    requires pos <= |input|
    ensures pos <= r.pos <= |input|
    ensures fail ==> r == Lexed(End, [], pos, true)
    ensures !fail ==> r.fail || pos < r.pos
    ensures r.kind == Op ==> !r.fail && |r.tokens| == 1 && IsOpChar(r.tokens[0])
  {
    if fail then Lexed(End, [], pos, true)
    else
      var p := SkipSpace(input, pos);
      if p == |input| then Lexed(End, [], p, true)
      else
        var c := input[p];
        if c == '"' then LexStr(input, p + 1, [])
        else if NumStart(c) then LexNum(input, p + 1, [c])
        else if c == 't' || c == 'f' || c == 'n' then
          var w := LexWord(input, p + 1, [c]);
          Lexed(WordKind(w.0), w.0, w.1, w.2)
        else if IsOpChar(c) then Lexed(Op, [c], p + 1, false)
        else Lexed(Err, [], p + 1, false)
  }

  /** The measure every reading loop decreases. */
  function Remaining(input: seq<char>, pos: nat, fail: bool): int
  {
    |input| - pos + (if fail then 0 else 1)
  }

  /** `consumeUntil(want)`: the first symbol of kind `want`, failing at an
      end or error symbol before it. */
  function Until(input: seq<char>, pos: nat, fail: bool, want: Kind): Result<Lexed, Error>
    requires pos <= |input|
    decreases Remaining(input, pos, fail)
  {
    var l := Lex(input, pos, fail);
    if l.kind == want then Success(l)
    else if Halting(l.kind) then Failure(FileExcept)
    else Until(input, l.pos, l.fail, want)
  }

  /** The bracket pairs `consumeProperty` skips. */
  predicate Brackets(op: char, cl: char)
  {
    (op == '{' && cl == '}') || (op == '[' && cl == ']')
  }

  /** The `do ... while` loop of `consumeProperty`: symbols up to the one
      that brings the count of open `op` brackets to zero. Only `op` and
      `cl` change the count. */
  /** Where skipping from `pos` at depth `n` ends. */
  ghost function SkipEnd(input: seq<char>, pos: nat, n: nat, op: char, cl: char): Result<Lexed, Error>
    requires pos <= |input| && n > 0
  {
    SkipBalanced(input, pos, false, op, cl, n)
  }

  function SkipBalanced(input: seq<char>, pos: nat, fail: bool, op: char, cl: char, n: nat): Result<Lexed, Error>
    requires pos <= |input| && n > 0
    decreases Remaining(input, pos, fail)
  {
    var l := Lex(input, pos, fail);
    if l.kind == Op then
      var m := if l.tokens[0] == op then n + 1 else if l.tokens[0] == cl then n - 1 else n;
      if m == 0 then Success(l) else SkipBalanced(input, l.pos, l.fail, op, cl, m)
    else if Halting(l.kind) then Failure(FileExcept)
    else SkipBalanced(input, l.pos, l.fail, op, cl, n)
  }

  /** `consumeProperty`, after a property name: a `:`, then a scalar or a
      balanced object or array. */
  function Property(input: seq<char>, pos: nat, fail: bool): Result<Lexed, Error>
    requires pos <= |input|
  {
    var colon := Lex(input, pos, fail);
    if colon.kind != Op || colon.tokens[0] != ':' then Failure(FileExcept)
    else
      var v := Lex(input, colon.pos, colon.fail);
      match v.kind
      case Str => Success(v)
      case Num => Success(v)
      case Bool => Success(v)
      case Null => Success(v)
      case Op =>
        if v.tokens[0] == '{' then SkipBalanced(input, v.pos, v.fail, '{', '}', 1)
        else if v.tokens[0] == '[' then SkipBalanced(input, v.pos, v.fail, '[', ']', 1)
        else Failure(FileExcept)
      case End => Failure(FileExcept)
      case Err => Failure(FileExcept)
  }

  // ---------------------------------------------------------------------
  // The symbol reader

  class Symbol {
    const input: seq<char>
    var pos: nat
    var fail: bool
    var kind: Kind
    var tokens: seq<char>

    ghost predicate Valid()
      reads this
    {
      pos <= |input|
    }

    /** A reader at the start of the stream, with no symbol read. */
    constructor (input: seq<char>)
      ensures Valid()
      ensures this.input == input && pos == 0 && !fail && kind == End && tokens == []
    {
      this.input := input;
      pos, fail := 0, false;
      kind, tokens := End, [];
    }

    /** `get(c)`: the next character, or `c` unchanged and the stream failed. */
    method Get(c: char) returns (d: char)
      requires Valid()
      modifies this`pos, this`fail
      ensures Valid()
      ensures !old(fail) && old(pos) < |input| ==> !fail && pos == old(pos) + 1 && d == input[old(pos)]
      ensures old(fail) || old(pos) == |input| ==> fail && pos == old(pos) && d == c
    {
      if fail || pos == |input| {
        fail := true;
        return c;
      }
      d := input[pos];
      pos := pos + 1;
    }

    /** `unget()` on a good stream. */
    method Unget()
      requires Valid() && !fail && pos > 0
      modifies this`pos
      ensures Valid() && pos == old(pos) - 1
    {
      pos := pos - 1;
    }

    /** `while (get(c) && isspace(c)) {}`. */
    method SkipSpaces() returns (c: char)
      requires Valid()
      modifies this`pos, this`fail
      ensures Valid()
      ensures old(fail) ==> fail && pos == old(pos)
      ensures !old(fail) ==> var p := SkipSpace(input, old(pos));
                if p == |input| then fail && pos == p else !fail && pos == p + 1 && c == input[p]
    {
      c := Get(' ');
      while !fail && IsSpace(c)
        invariant Valid()
        invariant old(fail) ==> fail && pos == old(pos)
        invariant !old(fail) && !fail ==> old(pos) < pos && c == input[pos - 1] && SkipSpace(input, old(pos)) == SkipSpace(input, pos - 1)
        invariant !old(fail) && fail ==> pos == |input| && SkipSpace(input, old(pos)) == |input|
        decreases Remaining(input, pos, fail)
      {
        c := Get(c);
      }
    }

    /** The string case of `next()`, after the opening quote. */
    method ScanStr() returns (k: Kind, toks: seq<char>)
      requires Valid() && !fail
      modifies this`pos, this`fail
      ensures Valid()
      ensures Lexed(k, toks, pos, fail) == LexStr(input, old(pos), [])
    {
      ghost var target := LexStr(input, pos, []);
      toks := [];
      var c: char := '"';
      while true
        invariant Valid()
        invariant target == if fail then Lexed(Err, toks, pos, true) else LexStr(input, pos, toks)
        decreases Remaining(input, pos, fail)
      {
        c := Get(c);
        if fail {
          return Err, toks;
        }
        if c == '"' {
          return Str, toks;
        }
        if c == '\\' {
          c := Get(c);
          if c != '"' && c != '\\' {
            return Err, toks;
          }
        }
        toks := toks + [c];
      }
    }

    /** The number case of `next()`, after its first character `c0`. The
        end of the stream ends the number (see README, Findings). */
    method ScanNum(c0: char) returns (toks: seq<char>)
      requires Valid() && !fail
      modifies this`pos, this`fail
      ensures Valid()
      ensures Lexed(Num, toks, pos, fail) == LexNum(input, old(pos), [c0])
    {
      ghost var target := LexNum(input, pos, [c0]);
      var c := c0;
      toks := [];
      assert toks + [c] == [c0];
      while true
        invariant Valid() && !fail
        invariant target == LexNum(input, pos, toks + [c])
        decreases |input| - pos
      {
        toks := toks + [c];
        c := Get(c);
        if fail {
          break;
        }
        if !NumChar(c) {
          Unget();
          break;
        }
      }
    }

    /** The `t`, `f` and `n` cases of `next()`: the run of lower-case
        letters from `c0`. The end of the stream ends the run. */
    method ScanWord(c0: char) returns (toks: seq<char>)
      requires Valid() && !fail
      modifies this`pos, this`fail
      ensures Valid()
      ensures (toks, pos, fail) == LexWord(input, old(pos), [c0])
    {
      ghost var target := LexWord(input, pos, [c0]);
      var c := c0;
      toks := [];
      assert toks + [c] == [c0];
      while true
        invariant Valid() && !fail
        invariant target == LexWord(input, pos, toks + [c])
        decreases |input| - pos
      {
        toks := toks + [c];
        c := Get(c);
        if fail || !IsLower(c) {
          break;
        }
      }
      if !fail {
        Unget();
      }
    }

    /** `next()`: reads the symbol at the cursor into `kind` and `tokens`. */
    method Next() returns (k: Kind)
      requires Valid()
      modifies this`pos, this`fail, this`kind, this`tokens
      ensures Valid()
      ensures Lexed(kind, tokens, pos, fail) == Lex(input, old(pos), old(fail)) && k == kind
    {
      tokens := [];
      var c := SkipSpaces();
      if fail {
        kind := End;
        return kind;
      }
      if c == '"' {
        kind, tokens := ScanStr();
      } else if NumStart(c) {
        tokens := ScanNum(c);
        kind := Num;
      } else if c == 't' || c == 'f' || c == 'n' {
        tokens := ScanWord(c);
        kind := WordKind(tokens);
      } else if IsOpChar(c) {
        tokens := [c];
        kind := Op;
      } else {
        kind := Err;
      }
      k := kind;
    }

    /** `consumeUntil(want)`. */
    method ConsumeUntil(want: Kind) returns (r: Outcome<Error>)
      requires Valid() && !fail && want != Err
      modifies this`pos, this`fail, this`kind, this`tokens
      ensures Valid()
      ensures r.Pass? <==> Until(input, old(pos), false, want).Success?
      ensures r.Pass? ==> Lexed(kind, tokens, pos, fail) == Until(input, old(pos), false, want).value
    {
      ghost var target := Until(input, pos, fail, want);
      while true
        invariant Valid()
        invariant Until(input, pos, fail, want) == target
        decreases Remaining(input, pos, fail)
      {
        var k := Next();
        if k == want {
          return Pass;
        }
        if Halting(k) {
          return Fail(FileExcept);
        }
      }
    }

    /** `consumeProperty()`, with a property name as the current symbol. */
    method ConsumeProperty() returns (r: Outcome<Error>)
      requires Valid() && !fail && kind == Str
      modifies this`pos, this`fail, this`kind, this`tokens
      ensures Valid()
      ensures r.Pass? <==> Property(input, old(pos), false).Success?
      ensures r.Pass? ==> Lexed(kind, tokens, pos, fail) == Property(input, old(pos), false).value
    {
      ghost var p0 := pos;
      var k := Next();
      if k != Op || tokens[0] != ':' {
        return Fail(FileExcept);
      }
      k := Next();
      if k == Str || k == Num || k == Bool || k == Null {
        return Pass;
      }
      if k != Op {
        return Fail(FileExcept);
      }
      var op := tokens[0];
      var cl;
      if op == '{' {
        cl := '}';
      } else if op == '[' {
        cl := ']';
      } else {
        return Fail(FileExcept);
      }
      r := SkipBracketed(op, cl);
    }

    /** The `do ... while` loop of `consumeProperty`, one `op` open. */
    method SkipBracketed(op: char, cl: char) returns (r: Outcome<Error>)
      requires Valid()
      modifies this`pos, this`fail, this`kind, this`tokens
      ensures Valid()
      ensures r.Pass? <==> SkipBalanced(input, old(pos), old(fail), op, cl, 1).Success?
      ensures r.Pass? ==> Lexed(kind, tokens, pos, fail) == SkipBalanced(input, old(pos), old(fail), op, cl, 1).value
    {
      ghost var target := SkipBalanced(input, pos, fail, op, cl, 1);
      var n: nat := 1;
      while true
        invariant Valid() && n > 0
        invariant SkipBalanced(input, pos, fail, op, cl, n) == target
        decreases Remaining(input, pos, fail)
      {
        var k := Next();
        if k == Op {
          if tokens[0] == op {
            n := n + 1;
          } else if tokens[0] == cl {
            n := n - 1;
          }
        } else if Halting(k) {
          return Fail(FileExcept);
        }
        if n == 0 {
          return Pass;
        }
      }
    }
  }

  /** The `GLTF` constructor's first check: the document opens with `{`. */
  method StartDocument(symbol: Symbol) returns (r: Outcome<Error>)
    requires symbol.Valid() && symbol.pos == 0 && !symbol.fail
    modifies symbol`pos, symbol`fail, symbol`kind, symbol`tokens
    ensures r.Pass? <==> DocumentOpens(symbol.input)
  {
    var k := symbol.Next();
    if k != Op || symbol.tokens[0] != '{' {
      return Fail(FileExcept);
    }
    return Pass;
  }

  /** The first non-space character of the document is `{`. */
  predicate DocumentOpens(input: seq<char>)
  {
    var p := SkipSpace(input, 0);
    p < |input| && input[p] == '{'
  }

  // ---------------------------------------------------------------------
  // Properties of the symbol reader

  /** A read on a failed stream is the end symbol, and a symbol is an
      operator exactly when its first non-space character is one. */
  lemma LexBasics(input: seq<char>, pos: nat)
    requires pos <= |input|
    ensures Lex(input, pos, true).kind == End
    ensures var p := SkipSpace(input, pos);
            Lex(input, pos, false).kind == Op <==> p < |input| && IsOpChar(input[p])
    ensures var p := SkipSpace(input, pos);
            Lex(input, pos, false).kind == End <==> p == |input|
  {
    var p := SkipSpace(input, pos);
    if p < |input| {
      var c := input[p];
      if c == 't' || c == 'f' || c == 'n' {
        var w := LexWord(input, p + 1, [c]);
        assert WordKind(w.0) != Op && WordKind(w.0) != End;
      }
    }
  }

  /** The document check accepts exactly documents whose first non-space
      character is `{`. */
  lemma DocumentOpensSpec(input: seq<char>)
    ensures DocumentOpens(input) <==> (var l := Lex(input, 0, false); l.kind == Op && l.tokens[0] == '{')
  {
    LexBasics(input, 0);
  }

  /** The text of a value of the JSON subset the reader understands: strings
      escape only `"` and `\`, numbers are runs of number characters. */
  datatype Json =
    | JStr(s: seq<char>)
    | JNum(digits: seq<char>)
    | JBool(b: bool)
    | JNull
    | JArr(items: seq<Json>)
    | JObj(members: seq<Member>)

  datatype Member = Member(key: seq<char>, value: Json)

  predicate NumText(d: seq<char>)
  {
    |d| > 0 && NumStart(d[0]) && forall i :: 0 <= i < |d| ==> NumChar(d[i])
  }

  /** Every number of the value is number text. */
  predicate WellFormedJson(v: Json)
  {
    match v
    case JNum(d) => NumText(d)
    case JArr(items) => forall i :: 0 <= i < |items| ==> WellFormedJson(items[i])
    case JObj(ms) => forall i :: 0 <= i < |ms| ==> WellFormedJson(ms[i].value)
    case _ => true
  }

  /** A string's characters with `"` and `\` escaped. */
  function Escape(s: seq<char>): seq<char>
  {
    if |s| == 0 then []
    else (if s[0] == '"' || s[0] == '\\' then ['\\', s[0]] else [s[0]]) + Escape(s[1..])
  }

  function QuoteStr(s: seq<char>): seq<char>
  {
    ['"'] + Escape(s) + ['"']
  }

  /** The compact text of a value. */
  function Print(v: Json): seq<char>
    decreases v, 1
  {
    match v
    case JStr(s) => QuoteStr(s)
    case JNum(d) => d
    case JBool(b) => if b then "true" else "false"
    case JNull => "null"
    case JArr(items) => ['['] + PrintItems(items) + [']']
    case JObj(ms) => ['{'] + PrintMembers(ms) + ['}']
  }

  function PrintItems(items: seq<Json>): seq<char>
    decreases items, 0
  {
    if |items| == 0 then []
    else if |items| == 1 then Print(items[0])
    else Print(items[0]) + [','] + PrintItems(items[1..])
  }

  function PrintMember(m: Member): seq<char>
    decreases m, 0
  {
    QuoteStr(m.key) + [':'] + Print(m.value)
  }

  function PrintMembers(ms: seq<Member>): seq<char>
    decreases ms, 0
  {
    if |ms| == 0 then []
    else if |ms| == 1 then PrintMember(ms[0])
    else PrintMember(ms[0]) + [','] + PrintMembers(ms[1..])
  }

  /** `x` appears in `input` at `q`. */
  predicate At(input: seq<char>, q: nat, x: seq<char>)
  {
    q + |x| <= |input| && forall i {:trigger x[i]} :: 0 <= i < |x| ==> input[q + i] == x[i]
  }

  lemma AtSplit(input: seq<char>, q: nat, x: seq<char>, y: seq<char>)
    requires At(input, q, x + y)
    ensures At(input, q, x) && At(input, q + |x|, y)
  {
    forall i | 0 <= i < |x| ensures input[q + i] == x[i] {
      assert x[i] == (x + y)[i];
    }
    forall i | 0 <= i < |y| ensures input[q + |x| + i] == y[i] {
      assert y[i] == (x + y)[|x| + i];
    }
  }

  lemma AtSplit3(input: seq<char>, q: nat, x: seq<char>, y: seq<char>, z: seq<char>)
    requires At(input, q, x + y + z)
    ensures At(input, q, x) && At(input, q + |x|, y) && At(input, q + |x| + |y|, z)
  {
    AtSplit(input, q, x + y, z);
    AtSplit(input, q, x, y);
  }

  lemma AtChar(input: seq<char>, q: nat, c: char)
    requires At(input, q, [c])
    ensures q < |input| && input[q] == c
  {
    assert [c][0] == c;
  }

  /** The position after `p` can end a number or a word. */
  predicate Delimited(input: seq<char>, p: nat)
  {
    p < |input| && !NumChar(input[p]) && !IsLower(input[p])
  }

  /** Reading an escaped string gives back its characters. */
  lemma {:induction false} LexStrEscaped(input: seq<char>, q: nat, s: seq<char>, acc: seq<char>)
    requires At(input, q, Escape(s) + ['"'])
    ensures LexStr(input, q, acc) == Lexed(Str, acc + s, q + |Escape(s)| + 1, false)
    decreases |s|
  {
    if |s| == 0 {
      assert Escape(s) + ['"'] == ['"'];
      AtChar(input, q, '"');
    } else {
      var head := if s[0] == '"' || s[0] == '\\' then ['\\', s[0]] else [s[0]];
      assert Escape(s) + ['"'] == head + (Escape(s[1..]) + ['"']);
      AtSplit(input, q, head, Escape(s[1..]) + ['"']);
      assert input[q..q + |head|] == head;
      assert input[q] == head[0];
      if |head| == 2 {
        assert input[q + 1] == head[1];
      }
      LexStrEscaped(input, q + |head|, s[1..], acc + [s[0]]);
      assert acc + [s[0]] + s[1..] == acc + s;
    }
  }

  /** Reading a delimited run of number characters gives back the run. */
  lemma {:induction false} LexNumRun(input: seq<char>, q: nat, d: seq<char>, acc: seq<char>)
    requires At(input, q, d) && Delimited(input, q + |d|)
    requires forall i :: 0 <= i < |d| ==> NumChar(d[i])
    ensures LexNum(input, q, acc) == Lexed(Num, acc + d, q + |d|, false)
    decreases |d|
  {
    if |d| > 0 {
      assert [d[0]] + d[1..] == d;
      AtSplit(input, q, [d[0]], d[1..]);
      AtChar(input, q, d[0]);
      LexNumRun(input, q + 1, d[1..], acc + [d[0]]);
      assert acc + [d[0]] + d[1..] == acc + d;
    }
  }

  /** Reading a delimited run of lower-case letters gives back the run. */
  lemma {:induction false} LexWordRun(input: seq<char>, q: nat, w: seq<char>, acc: seq<char>)
    requires At(input, q, w) && Delimited(input, q + |w|)
    requires forall i :: 0 <= i < |w| ==> IsLower(w[i])
    ensures LexWord(input, q, acc) == (acc + w, q + |w|, false)
    decreases |w|
  {
    if |w| > 0 {
      assert [w[0]] + w[1..] == w;
      AtSplit(input, q, [w[0]], w[1..]);
      AtChar(input, q, w[0]);
      LexWordRun(input, q + 1, w[1..], acc + [w[0]]);
      assert acc + [w[0]] + w[1..] == acc + w;
    } else {
      assert acc + w == acc;
    }
  }

  /** A quoted string reads as one string symbol holding its characters. */
  lemma LexQuoted(input: seq<char>, q: nat, s: seq<char>)
    requires At(input, q, QuoteStr(s))
    ensures Lex(input, q, false) == Lexed(Str, s, q + |QuoteStr(s)|, false)
  {
    assert QuoteStr(s) == ['"'] + (Escape(s) + ['"']);
    AtSplit(input, q, ['"'], Escape(s) + ['"']);
    AtChar(input, q, '"');
    LexStrEscaped(input, q + 1, s, []);
  }

  /** A delimited number reads as one number symbol holding its text. */
  lemma LexNumber(input: seq<char>, q: nat, d: seq<char>)
    requires NumText(d) && At(input, q, d) && Delimited(input, q + |d|)
    ensures Lex(input, q, false) == Lexed(Num, d, q + |d|, false)
  {
    assert [d[0]] + d[1..] == d;
    AtSplit(input, q, [d[0]], d[1..]);
    AtChar(input, q, d[0]);
    LexNumRun(input, q + 1, d[1..], [d[0]]);
  }

  /** A delimited keyword reads as one symbol of its kind. */
  lemma LexKeyword(input: seq<char>, q: nat, w: seq<char>)
    requires w == "true" || w == "false" || w == "null"
    requires At(input, q, w) && Delimited(input, q + |w|)
    ensures Lex(input, q, false) == Lexed(if w == "null" then Null else Bool, w, q + |w|, false)
  {
    assert [w[0]] + w[1..] == w;
    AtSplit(input, q, [w[0]], w[1..]);
    AtChar(input, q, w[0]);
    LexWordRun(input, q + 1, w[1..], [w[0]]);
  }

  /** An operator character reads as one operator symbol. */
  lemma LexOpChar(input: seq<char>, q: nat, c: char)
    requires IsOpChar(c) && q < |input| && input[q] == c
    ensures Lex(input, q, false) == Lexed(Op, [c], q + 1, false)
  {
  }

  /** The bracket count after an operator symbol `c`. */
  function Count(c: char, op: char, cl: char, n: nat): nat
    requires n > 0
  {
    if c == op then n + 1 else if c == cl then n - 1 else n
  }

  /** An operator character in the skip loop moves the count and nothing
      else, unless it closes the last bracket. */
  lemma SkipOpChar(input: seq<char>, q: nat, c: char, op: char, cl: char, n: nat)
    requires IsOpChar(c) && q < |input| && input[q] == c && n > 0 && Count(c, op, cl, n) > 0
    ensures SkipEnd(input, q, n, op, cl) == SkipEnd(input, q + 1, Count(c, op, cl, n), op, cl)
  {
  }

  /** A scalar symbol in the skip loop changes nothing but the cursor. */
  lemma SkipScalar(input: seq<char>, q: nat, l: Lexed, e: nat, op: char, cl: char, n: nat)
    requires q <= |input| && n > 0 && Lex(input, q, false) == l && !l.fail && l.pos == e
    requires l.kind == Str || l.kind == Num || l.kind == Bool || l.kind == Null
    ensures SkipEnd(input, q, n, op, cl) == SkipEnd(input, e, n, op, cl)
  {
  }

  /** A pair of brackets, whichever kind, moves the count up and back down
      or leaves it alone. */
  lemma CountBalanced(open: char, close: char, op: char, cl: char, n: nat)
    requires Brackets(open, close) && Brackets(op, cl) && n > 0
    ensures Count(open, op, cl, n) > 0 && Count(close, op, cl, Count(open, op, cl, n)) == n
  {
  }

  /** An opening bracket, a body that leaves the count it starts with
      unchanged and the matching closing bracket just before `e` leave the
      count unchanged. */
  lemma SkipEnclosed(input: seq<char>, q: nat, open: char, len: nat, close: char, e: nat, op: char, cl: char, n: nat)
    requires Brackets(open, close) && Brackets(op, cl) && n > 0
    requires e == q + len + 2 <= |input| && input[q] == open && input[q + len + 1] == close
    requires SkipEnd(input, q + 1, Count(open, op, cl, n), op, cl) == SkipEnd(input, q + 1 + len, Count(open, op, cl, n), op, cl)
    ensures SkipEnd(input, q, n, op, cl) == SkipEnd(input, e, n, op, cl)
  {
    CountBalanced(open, close, op, cl, n);
    SkipOpChar(input, q, open, op, cl, n);
    SkipOpChar(input, q + 1 + len, close, op, cl, Count(open, op, cl, n));
  }

  /** A separator between two stretches that each leave the count unchanged
      leaves it unchanged. */
  lemma SkipSeparated(input: seq<char>, q: nat, len: nat, c: char, e: nat, op: char, cl: char, n: nat)
    requires Brackets(op, cl) && n > 0 && (c == ',' || c == ':')
    requires q + len < |input| && input[q + len] == c && q + len + 1 <= e <= |input|
    requires SkipEnd(input, q, n, op, cl) == SkipEnd(input, q + len, n, op, cl)
    requires SkipEnd(input, q + len + 1, n, op, cl) == SkipEnd(input, e, n, op, cl)
    ensures SkipEnd(input, q, n, op, cl) == SkipEnd(input, e, n, op, cl)
  {
    SkipOpChar(input, q + len, c, op, cl, n);
  }

  /** Where the brackets and the body of a bracketed text lie. */
  lemma EnclosedLayout(input: seq<char>, q: nat, open: char, body: seq<char>, close: char)
    requires At(input, q, [open] + body + [close])
    ensures q < |input| && input[q] == open && At(input, q + 1, body)
    ensures q + |body| + 2 <= |input| && input[q + |body| + 1] == close
  {
    AtSplit3(input, q, [open], body, [close]);
    AtChar(input, q, open);
    AtChar(input, q + 1 + |body|, close);
  }

  /** Where the two parts and the separator of a separated text lie. */
  lemma SeparatedLayout(input: seq<char>, q: nat, first: seq<char>, c: char, rest: seq<char>)
    requires At(input, q, first + [c] + rest)
    ensures At(input, q, first) && q + |first| < |input| && input[q + |first|] == c
    ensures At(input, q + |first| + 1, rest)
  {
    AtSplit3(input, q, first, [c], rest);
    AtChar(input, q + |first|, c);
  }

  /** The printed value, ending at `e` before a delimiter, leaves a bracket
      count unchanged: skipping through it is the same as skipping from its
      end. */
  lemma {:induction false} SkipValue(input: seq<char>, q: nat, v: Json, e: nat, op: char, cl: char, n: nat)
    requires WellFormedJson(v) && Brackets(op, cl) && n > 0
    requires e == q + |Print(v)| && At(input, q, Print(v)) && Delimited(input, e)
    ensures SkipEnd(input, q, n, op, cl) == SkipEnd(input, e, n, op, cl)
    decreases v, 2
  {
    match v
    case JArr(items) =>
      EnclosedLayout(input, q, '[', PrintItems(items), ']');
      SkipArray(input, q, items, e, op, cl, n);
    case JObj(ms) =>
      EnclosedLayout(input, q, '{', PrintMembers(ms), '}');
      SkipObject(input, q, ms, e, op, cl, n);
    case _ =>
      SkipScalarValue(input, q, v, e, op, cl, n);
  }

  lemma SkipScalarValue(input: seq<char>, q: nat, v: Json, e: nat, op: char, cl: char, n: nat)
    requires !v.JArr? && !v.JObj? && WellFormedJson(v) && n > 0
    requires e == q + |Print(v)| && At(input, q, Print(v)) && Delimited(input, e)
    ensures SkipEnd(input, q, n, op, cl) == SkipEnd(input, e, n, op, cl)
  {
    match v {
      case JStr(s) =>
        LexQuoted(input, q, s);
      case JNum(d) =>
        LexNumber(input, q, d);
      case JBool(b) =>
        LexKeyword(input, q, Print(v));
      case JNull =>
        LexKeyword(input, q, Print(v));
    }
    SkipScalar(input, q, Lex(input, q, false), e, op, cl, n);
  }

  /** An array: its brackets around its items. */
  lemma {:induction false} SkipArray(input: seq<char>, q: nat, items: seq<Json>, e: nat, op: char, cl: char, n: nat)
    requires forall i :: 0 <= i < |items| ==> WellFormedJson(items[i])
    requires Brackets(op, cl) && n > 0
    requires q < |input| && input[q] == '[' && At(input, q + 1, PrintItems(items))
    requires e == q + |PrintItems(items)| + 2 <= |input| && input[e - 1] == ']'
    ensures SkipEnd(input, q, n, op, cl) == SkipEnd(input, e, n, op, cl)
    decreases items, 1
  {
    CountBalanced('[', ']', op, cl, n);
    SkipItems(input, q + 1, items, q + 1 + |PrintItems(items)|, op, cl, Count('[', op, cl, n));
    SkipEnclosed(input, q, '[', |PrintItems(items)|, ']', e, op, cl, n);
  }

  /** An object: its braces around its members. */
  lemma {:induction false} SkipObject(input: seq<char>, q: nat, ms: seq<Member>, e: nat, op: char, cl: char, n: nat)
    requires forall i :: 0 <= i < |ms| ==> WellFormedJson(ms[i].value)
    requires Brackets(op, cl) && n > 0
    requires q < |input| && input[q] == '{' && At(input, q + 1, PrintMembers(ms))
    requires e == q + |PrintMembers(ms)| + 2 <= |input| && input[e - 1] == '}'
    ensures SkipEnd(input, q, n, op, cl) == SkipEnd(input, e, n, op, cl)
    decreases ms, 1
  {
    CountBalanced('{', '}', op, cl, n);
    SkipMembers(input, q + 1, ms, q + 1 + |PrintMembers(ms)|, op, cl, Count('{', op, cl, n));
    SkipEnclosed(input, q, '{', |PrintMembers(ms)|, '}', e, op, cl, n);
  }

  lemma ItemsTail(items: seq<Json>)
    requires |items| > 0 && forall i :: 0 <= i < |items| ==> WellFormedJson(items[i])
    ensures forall i :: 0 <= i < |items[1..]| ==> WellFormedJson(items[1..][i])
  {
    assert forall i :: 0 <= i < |items[1..]| ==> items[1..][i] == items[i + 1];
  }

  lemma MembersTail(ms: seq<Member>)
    requires |ms| > 0 && forall i :: 0 <= i < |ms| ==> WellFormedJson(ms[i].value)
    ensures forall i :: 0 <= i < |ms[1..]| ==> WellFormedJson(ms[1..][i].value)
  {
    assert forall i :: 0 <= i < |ms[1..]| ==> ms[1..][i] == ms[i + 1];
  }

  /** Items separated by commas. */
  lemma {:induction false} SkipItems(input: seq<char>, q: nat, items: seq<Json>, e: nat, op: char, cl: char, n: nat)
    requires forall i :: 0 <= i < |items| ==> WellFormedJson(items[i])
    requires Brackets(op, cl) && n > 0
    requires e == q + |PrintItems(items)| && At(input, q, PrintItems(items)) && Delimited(input, e)
    ensures SkipEnd(input, q, n, op, cl) == SkipEnd(input, e, n, op, cl)
    decreases items, 0
  {
    if |items| == 1 {
      SkipValue(input, q, items[0], e, op, cl, n);
    } else if |items| > 1 {
      ItemsLayout(input, q, items);
      SkipValue(input, q, items[0], q + |Print(items[0])|, op, cl, n);
      ItemsTail(items);
      SkipItems(input, q + |Print(items[0])| + 1, items[1..], e, op, cl, n);
      SkipSeparated(input, q, |Print(items[0])|, ',', e, op, cl, n);
    }
  }

  /** The first item, its comma and the other items. */
  lemma ItemsLayout(input: seq<char>, q: nat, items: seq<Json>)
    requires |items| > 1 && At(input, q, PrintItems(items))
    ensures At(input, q, Print(items[0])) && q + |Print(items[0])| < |input|
    ensures input[q + |Print(items[0])|] == ','
    ensures At(input, q + |Print(items[0])| + 1, PrintItems(items[1..]))
    ensures q + |PrintItems(items)| == q + |Print(items[0])| + 1 + |PrintItems(items[1..])|
  {
    assert PrintItems(items) == Print(items[0]) + [','] + PrintItems(items[1..]);
    SeparatedLayout(input, q, Print(items[0]), ',', PrintItems(items[1..]));
  }

  /** Members separated by commas. */
  lemma {:induction false} SkipMembers(input: seq<char>, q: nat, ms: seq<Member>, e: nat, op: char, cl: char, n: nat)
    requires forall i :: 0 <= i < |ms| ==> WellFormedJson(ms[i].value)
    requires Brackets(op, cl) && n > 0
    requires e == q + |PrintMembers(ms)| && At(input, q, PrintMembers(ms)) && Delimited(input, e)
    ensures SkipEnd(input, q, n, op, cl) == SkipEnd(input, e, n, op, cl)
    decreases ms, 0
  {
    if |ms| == 1 {
      SkipMember(input, q, ms[0], e, op, cl, n);
    } else if |ms| > 1 {
      var first := PrintMember(ms[0]);
      var rest := PrintMembers(ms[1..]);
      assert PrintMembers(ms) == first + [','] + rest;
      SeparatedLayout(input, q, first, ',', rest);
      SkipMember(input, q, ms[0], q + |first|, op, cl, n);
      MembersTail(ms);
      SkipMembers(input, q + |first| + 1, ms[1..], e, op, cl, n);
      SkipSeparated(input, q, |first|, ',', e, op, cl, n);
    }
  }

  /** A member: its quoted key, a colon and its value. */
  lemma SkipMember(input: seq<char>, q: nat, m: Member, e: nat, op: char, cl: char, n: nat)
    requires WellFormedJson(m.value) && Brackets(op, cl) && n > 0
    requires e == q + |PrintMember(m)| && At(input, q, PrintMember(m)) && Delimited(input, e)
    ensures SkipEnd(input, q, n, op, cl) == SkipEnd(input, e, n, op, cl)
    decreases m, 0
  {
    var key := QuoteStr(m.key);
    SeparatedLayout(input, q, key, ':', Print(m.value));
    LexQuoted(input, q, m.key);
    SkipScalar(input, q, Lex(input, q, false), q + |key|, op, cl, n);
    SkipValue(input, q + |key| + 1, m.value, e, op, cl, n);
    SkipSeparated(input, q, |key|, ':', e, op, cl, n);
  }

  /** `consumeProperty` skips exactly one value: after a `:` and a printed
      value followed by a delimiter, it succeeds with the cursor just past
      the value. */
  lemma PropertySkipsValue(input: seq<char>, q: nat, v: Json)
    requires WellFormedJson(v)
    requires At(input, q, [':'] + Print(v)) && Delimited(input, q + 1 + |Print(v)|)
    ensures Property(input, q, false).Success?
    ensures Property(input, q, false).value.pos == q + 1 + |Print(v)|
  {
    AtSplit(input, q, [':'], Print(v));
    AtChar(input, q, ':');
    LexOpChar(input, q, ':');
    var p := q + 1;
    match v
    case JStr(s) =>
      LexQuoted(input, p, s);
    case JNum(d) =>
      LexNumber(input, p, d);
    case JBool(b) =>
      LexKeyword(input, p, Print(v));
    case JNull =>
      LexKeyword(input, p, Print(v));
    case JArr(items) =>
      EnclosedLayout(input, p, '[', PrintItems(items), ']');
      PropertySkipsArray(input, q, items, q + 1 + |Print(v)|);
    case JObj(ms) =>
      EnclosedLayout(input, p, '{', PrintMembers(ms), '}');
      PropertySkipsObject(input, q, ms, q + 1 + |Print(v)|);
  }

  lemma PropertySkipsArray(input: seq<char>, q: nat, items: seq<Json>, e: nat)
    requires forall i :: 0 <= i < |items| ==> WellFormedJson(items[i])
    requires q <= |input| && Lex(input, q, false) == Lexed(Op, [':'], q + 1, false)
    requires q + 1 < |input| && input[q + 1] == '[' && At(input, q + 2, PrintItems(items))
    requires e == q + |PrintItems(items)| + 3 && Delimited(input, e) && input[e - 1] == ']'
    ensures Property(input, q, false) == Success(Lexed(Op, "]", e, false))
  {
    LexOpChar(input, q + 1, '[');
    SkipItems(input, q + 2, items, e - 1, '[', ']', 1);
    LexOpChar(input, e - 1, ']');
  }

  lemma PropertySkipsObject(input: seq<char>, q: nat, ms: seq<Member>, e: nat)
    requires forall i :: 0 <= i < |ms| ==> WellFormedJson(ms[i].value)
    requires q <= |input| && Lex(input, q, false) == Lexed(Op, [':'], q + 1, false)
    requires q + 1 < |input| && input[q + 1] == '{' && At(input, q + 2, PrintMembers(ms))
    requires e == q + |PrintMembers(ms)| + 3 && Delimited(input, e) && input[e - 1] == '}'
    ensures Property(input, q, false) == Success(Lexed(Op, "}", e, false))
  {
    LexOpChar(input, q + 1, '{');
    SkipMembers(input, q + 2, ms, e - 1, '{', '}', 1);
    LexOpChar(input, e - 1, '}');
  }

  /** A bracket of the other kind does not count: `[` inside `{ ... }` may
      stay unclosed. */
  lemma ReaderMixedBrackets()
    ensures Property(":{[}", 0, false) == Success(Lexed(Op, "}", 4, false))
  {
    LexOpChar(":{[}", 0, ':');
    LexOpChar(":{[}", 1, '{');
    LexOpChar(":{[}", 2, '[');
    LexOpChar(":{[}", 3, '}');
  }

  /** Any other escape than `\"` and `\\` is an error. */
  lemma ReaderBadEscape()
    ensures Lex("\"\\n\"", 0, false).kind == Err
  {
  }

  /** A letter run that is not a whole keyword is an error. */
  lemma ReaderShortKeyword()
    ensures Lex("  tru,", 0, false).kind == Err
  {
    var w := "  tru,";
    assert SkipSpace(w, 0) == 2;
    assert "t" + ['r'] == "tr" && "tr" + ['u'] == "tru";
    assert LexWord(w, 5, "tru") == ("tru", 5, false);
    assert LexWord(w, 4, "tr") == LexWord(w, 5, "tru");
    assert LexWord(w, 3, "t") == LexWord(w, 4, "tr");
    assert [w[2]] == "t";
  }

  /** `consumeUntil` stops at the first symbol of the wanted kind, provided
      no end or error symbol comes before it. */
  lemma {:induction false} UntilFirst(input: seq<char>, pos: nat, fail: bool, want: Kind, n: nat)
    requires pos <= |input|
    requires forall k :: 0 <= k < n ==> SymbolAt(input, pos, fail, k).kind != want && !Halting(SymbolAt(input, pos, fail, k).kind)
    ensures SymbolAt(input, pos, fail, n).kind == want ==> Until(input, pos, fail, want) == Success(SymbolAt(input, pos, fail, n))
    ensures SymbolAt(input, pos, fail, n).kind != want && Halting(SymbolAt(input, pos, fail, n).kind) ==> Until(input, pos, fail, want).Failure?
    decreases n
  {
    if n > 0 {
      var l := Lex(input, pos, fail);
      assert SymbolAt(input, pos, fail, 0) == l;
      forall k | 0 <= k < n - 1
        ensures SymbolAt(input, l.pos, l.fail, k).kind != want && !Halting(SymbolAt(input, l.pos, l.fail, k).kind)
      {
        assert SymbolAt(input, pos, fail, k + 1) == SymbolAt(input, l.pos, l.fail, k);
      }
      UntilFirst(input, l.pos, l.fail, want, n - 1);
      assert SymbolAt(input, pos, fail, n) == SymbolAt(input, l.pos, l.fail, n - 1);
    }
  }

  /** The symbol `k` reads after the cursor (`0` is the next one). */
  function SymbolAt(input: seq<char>, pos: nat, fail: bool, k: nat): Lexed
    requires pos <= |input|
    decreases k
  {
    var l := Lex(input, pos, fail);
    if k == 0 then l else SymbolAt(input, l.pos, l.fail, k - 1)
  }

  // ---------------------------------------------------------------------
  // Numbers and keywords at the end of the stream, as written

  /** Which run a reading loop is in. */
  datatype Run = NumberRun | WordRun

  predicate Continues(run: Run, c: char)
  {
    match run
    case NumberRun => NumChar(c)
    case WordRun => IsLower(c)
  }

  /** The state of a number or keyword loop: the stream, the character
      variable and the tokens. */
  datatype ScanState = ScanState(pos: nat, fail: bool, c: char, tokens: seq<char>)

  /** One pass of the loop as written: append `c`, `get(c)`, and go on
      while `c` still continues the run. A failed `get` leaves `c` as it
      was. */
  function ScanStepAsWritten(input: seq<char>, run: Run, s: ScanState): (bool, ScanState)
  {
    var t := s.tokens + [s.c];
    if s.fail || s.pos >= |input| then (Continues(run, s.c), ScanState(s.pos, true, s.c, t))
    else (Continues(run, input[s.pos]), ScanState(s.pos + 1, false, input[s.pos], t))
  }

  /** The loop as written is still running after `steps` passes. */
  function RunningAsWritten(input: seq<char>, run: Run, s: ScanState, steps: nat): bool
    decreases steps
  {
    steps == 0 ||
      var (go, next) := ScanStepAsWritten(input, run, s);
      go && RunningAsWritten(input, run, next, steps - 1)
  }

  /** Once the stream is exhausted with a continuing character, the loop as
      written never stops. */
  lemma {:induction false} ExhaustedRunsForever(input: seq<char>, run: Run, s: ScanState, steps: nat)
    requires s.fail || s.pos >= |input|
    requires Continues(run, s.c)
    ensures RunningAsWritten(input, run, s, steps)
    decreases steps
  {
    if steps > 0 {
      var next := ScanStepAsWritten(input, run, s).1;
      ExhaustedRunsForever(input, run, next, steps - 1);
    }
  }

  /** A file ending in a number (`5`) or a keyword (`true`) keeps the loop
      as written running after any number of passes, while the reader of
      this model ends the symbol there. */
  lemma EndOfStreamHangsAsWritten(steps: nat)
    ensures RunningAsWritten("5", NumberRun, ScanState(1, false, '5', []), steps)
    ensures RunningAsWritten("true", WordRun, ScanState(1, false, 't', []), steps)
    ensures Lex("5", 0, false) == Lexed(Num, "5", 1, true)
    ensures Lex("true", 0, false) == Lexed(Bool, "true", 4, true)
  {
    ExhaustedRunsForever("5", NumberRun, ScanState(1, false, '5', []), steps);
    var s3 := ScanState(4, false, 'e', "tru");
    ExhaustedRunsForever("true", WordRun, s3, if steps >= 3 then steps - 3 else 0);
    if steps >= 3 {
      var s0 := ScanState(1, false, 't', []);
      var s1 := ScanState(2, false, 'r', "t");
      var s2 := ScanState(3, false, 'u', "tr");
      assert [] + ['t'] == "t" && "t" + ['r'] == "tr" && "tr" + ['u'] == "tru";
      assert ScanStepAsWritten("true", WordRun, s0) == (true, s1);
      assert ScanStepAsWritten("true", WordRun, s1) == (true, s2);
      assert ScanStepAsWritten("true", WordRun, s2) == (true, s3);
    }
    var t := "true";
    assert "t" + ['r'] == "tr" && "tr" + ['u'] == "tru" && "tru" + ['e'] == t;
    assert LexWord(t, 4, t) == (t, 4, true);
    assert LexWord(t, 3, "tru") == LexWord(t, 4, t);
    assert LexWord(t, 2, "tr") == LexWord(t, 3, "tru");
    assert LexWord(t, 1, "t") == LexWord(t, 2, "tr");
    assert [t[0]] == "t";
  }

  // ---------------------------------------------------------------------
  // Node transforms

  /** The transform of a parsed node, from the default TRS transform `base`
      (translation 0..2, rotation 3..6, scale 7..9) and the `translation`,
      `rotation`, `scale` and `matrix` arrays read (empty when absent). */
  function NodeTransform<T>(base: seq<T>, t: seq<T>, r: seq<T>, s: seq<T>, m: seq<T>): Result<seq<T>, Error>
    requires |base| == 10
  {
    if |m| == 0 then
      if |t| != 0 && |t| != 3 then Failure(FileExcept)
      else if |r| != 0 && |r| != 4 then Failure(FileExcept)
      else if |s| != 0 && |s| != 3 then Failure(FileExcept)
      else Success((if |t| == 0 then base[..3] else t)
                   + (if |r| == 0 then base[3..7] else r)
                   + (if |s| == 0 then base[7..] else s))
    else if |m| != 16 then Failure(FileExcept)
    else Success(m)
  }

  /** A matrix must have 16 elements and replaces the transform, whatever
      the other arrays; without one, each given part must have its size
      (3, 4, 3) and replaces its slice of the default, the others keep the
      default. */
  lemma NodeTransformSpec<T>(base: seq<T>, t: seq<T>, r: seq<T>, s: seq<T>, m: seq<T>)
    requires |base| == 10
    ensures |m| > 0 ==> (NodeTransform(base, t, r, s, m).Success? <==> |m| == 16)
    ensures |m| > 0 && |m| == 16 ==> NodeTransform(base, t, r, s, m).value == m
    ensures |m| == 0 ==> (NodeTransform(base, t, r, s, m).Success? <==>
                          (|t| == 0 || |t| == 3) && (|r| == 0 || |r| == 4) && (|s| == 0 || |s| == 3))
    ensures |m| == 0 && NodeTransform(base, t, r, s, m).Success? ==>
              var x := NodeTransform(base, t, r, s, m).value;
              && |x| == 10
              && x[..3] == (if |t| == 0 then base[..3] else t)
              && x[3..7] == (if |r| == 0 then base[3..7] else r)
              && x[7..] == (if |s| == 0 then base[7..] else s)
  {
  }
}
