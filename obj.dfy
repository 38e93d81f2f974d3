/**
 * The face handling of the OBJ loader: the face format is detected once
 * from the first vertex token of the first face, each vertex token of a
 * face is read as one, two or three 1-based attribute numbers, and a
 * repeated vertex reuses the index of its first occurrence. Attribute
 * values (floating point) are not modelled: a vertex is the attribute
 * numbers it refers to, and `v`/`vt`/`vn` lines only count.
 */
module SgObj {
  import opened Wrappers

  datatype Error =
    | FileExcept    // "Invalid OBJ file" from the face scan
    | RuntimeError  // the `default` case of `processFace`
    | Unreadable    // a vertex token the index reads cannot take apart

  /** The face format flags `FPos`, `FTc`, `FNorm` and `FQuad`. */
  datatype Format = Format(pos: bool, tc: bool, norm: bool, quad: bool)

  const FNone := Format(false, false, false, false)

  /** The flags as the `enum` numbers them. */
  function Bits(f: Format): (b: nat)
    ensures b < 0x20 && (b == 0 <==> f == FNone)
  {
    (if f.pos then 0x01 else 0) + (if f.tc then 0x02 else 0) + (if f.norm then 0x04 else 0) + (if f.quad then 0x10 else 0)
  }

  // ---------------------------------------------------------------------
  // Face format detection

  /** The first `c` at or after `from`: the `/` of a face token, or the
      newline that ends a line of the file. */
  function Find(s: seq<char>, c: char, from: nat): (r: Option<nat>)
    ensures r.Some? ==> from <= r.value < |s| && s[r.value] == c
    ensures r.Some? ==> forall k :: from <= k < r.value ==> s[k] != c
    ensures r.None? ==> forall k :: from <= k < |s| ==> s[k] != c
    decreases |s| - from
  {
    if from >= |s| then None
    else if s[from] == c then Some(from)
    else Find(s, c, from + 1)
  }

  /** The format the first vertex token of the first face selects. The
      scan starts at the token's second character: no `/` gives `FPos`; a
      first `/` that ends the token is an error; `//` adds `FNorm`; any
      other character after the first `/` adds `FTc`, and a later `/`
      adds `FNorm` as well. */
  function FormatOf(tok: seq<char>): Result<Format, Error>
  {
    match Find(tok, '/', 1)
    case None => Success(Format(true, false, false, false))
    case Some(k) =>
      if k + 1 == |tok| then Failure(FileExcept)
      else if tok[k + 1] == '/' then Success(Format(true, false, true, false))
      else Success(Format(true, true, Find(tok, '/', k + 2).Some?, false))
  }

  /** The first `c` is found exactly at `k` when `k` holds a `c` and none
      comes before it. */
  lemma {:induction false} FindAt(s: seq<char>, c: char, from: nat, k: nat)
    requires from <= k < |s| && s[k] == c
    requires forall j :: from <= j < k ==> s[j] != c
    ensures Find(s, c, from) == Some(k)
    decreases k - from
  {
    if from < k {
      FindAt(s, c, from + 1, k);
    }
  }

  /** A rest without `c` gives none. */
  lemma {:induction false} FindNone(s: seq<char>, c: char, from: nat)
    requires forall j :: from <= j < |s| ==> s[j] != c
    ensures Find(s, c, from) == None
    decreases |s| - from
  {
    if from < |s| {
      FindNone(s, c, from + 1);
    }
  }

  /** The scan of the first vertex token: `FPos` always, then the flags
      the slashes after the first character select. */
  method DetectFormat(tok: seq<char>) returns (r: Result<Format, Error>)
    ensures r == FormatOf(tok)
    ensures r.Success? ==> r.value.pos && !r.value.quad
  {
    var format := Format(true, false, false, false);
    var i := 1;
    while i < |tok|
      invariant 1 <= i
      invariant forall k :: 1 <= k < i && k < |tok| ==> tok[k] != '/'
      decreases |tok| - i
    {
      if tok[i] == '/' {
        FindAt(tok, '/', 1, i);
        i := i + 1;
        if i == |tok| {
          return Failure(FileExcept);
        }
        if tok[i] == '/' {
          format := format.(norm := true);
        } else {
          format := format.(tc := true);
          ghost var start := i + 1;
          i := i + 1;
          while i < |tok|
            invariant start <= i
            invariant forall k :: start <= k < i && k < |tok| ==> tok[k] != '/'
            decreases |tok| - i
          {
            if tok[i] == '/' {
              FindAt(tok, '/', start, i);
              format := format.(norm := true);
              break;
            }
            i := i + 1;
          }
          if !format.norm {
            FindNone(tok, '/', start);
          }
        }
        return Success(format);
      }
      i := i + 1;
    }
    FindNone(tok, '/', 1);
    return Success(format);
  }

  /** The token forms of the four formats, and a `/` at the end. */
  lemma FormatExamples()
    ensures FormatOf("7") == Success(Format(true, false, false, false))
    ensures FormatOf("7/2") == Success(Format(true, true, false, false))
    ensures FormatOf("7//3") == Success(Format(true, false, true, false))
    ensures FormatOf("7/2/3") == Success(Format(true, true, true, false))
    ensures FormatOf("7/").Failure?
  {
    FindNone("7", '/', 1);
    FindAt("7/2", '/', 1, 1);
    FindNone("7/2", '/', 3);
    FindAt("7//3", '/', 1, 1);
    FindAt("7/2/3", '/', 1, 1);
    FindAt("7/2/3", '/', 3, 3);
    FindAt("7/", '/', 1, 1);
  }

  // ---------------------------------------------------------------------
  // Decimal numbers

  predicate IsDigit(c: char)
  {
    '0' <= c <= '9'
  }

  function DigitChar(d: nat): (c: char)
    requires d < 10
    ensures IsDigit(c) && DigitValue(c) == d
  {
    ('0' as int + d) as char
  }

  function DigitValue(c: char): (d: nat)
    requires IsDigit(c)
    ensures d < 10
  {
    c as int - '0' as int
  }

  /** `to_string` of an unsigned number. */
  function Decimal(n: nat): (s: seq<char>)
    ensures |s| > 0
  {
    if n < 10 then [DigitChar(n)] else Decimal(n / 10) + [DigitChar(n % 10)]
  }

  ghost predicate AllDigits(s: seq<char>)
  {
    forall i :: 0 <= i < |s| ==> IsDigit(s[i])
  }

  /** A decimal is made of digits. */
  lemma {:induction false} DecimalDigits(n: nat)
    ensures AllDigits(Decimal(n))
  {
    if n >= 10 {
      DecimalDigits(n / 10);
    }
  }

  /** The number a run of digits spells. */
  function DigitsValue(s: seq<char>): nat
    requires AllDigits(s)
  {
    if |s| == 0 then 0
    else DigitsValue(s[..|s| - 1]) * 10 + DigitValue(s[|s| - 1])
  }

  /** The length of the run of digits that starts `s`. */
  function DigitRun(s: seq<char>): (n: nat)
    ensures n <= |s| && forall i :: 0 <= i < n ==> IsDigit(s[i])
    ensures n < |s| ==> !IsDigit(s[n])
  {
    if |s| == 0 || !IsDigit(s[0]) then 0 else 1 + DigitRun(s[1..])
  }

  /** The digits at the head of a number field: their value and what
      follows them, or nothing when no digit leads. */
  function ReadNumber(s: seq<char>): Option<(nat, seq<char>)>
  {
    var n := DigitRun(s);
    if n == 0 then None else Some((DigitsValue(s[..n]), s[n..]))
  }

  /** `iss >> i` on an unsigned number: an optional `+` sign, then the
      digits. A `-` sign is not read (see the README). */
  function ReadField(s: seq<char>): Option<(nat, seq<char>)>
  {
    if |s| > 0 && s[0] == '+' then ReadNumber(s[1..]) else ReadNumber(s)
  }

  /** A `+` sign before the digits is read as `num_get` reads it; a lone
      sign or a `-` sign is not. */
  lemma SignedFieldExamples()
    ensures ReadField("+1") == Some((1, "")) && ReadField("+3") == Some((3, ""))
    ensures ReadField("+12/+3") == Some((12, "/+3"))
    ensures ReadField("+") == None && ReadField("-1") == None
  {
    assert "+1"[1..] == "1" && "+3"[1..] == "3" && "+"[1..] == "";
    assert DigitRun("1") == 1 && DigitRun("3") == 1;
    assert "+12/+3"[1..] == "12/+3";
    assert DigitRun("12/+3") == 2 by { assert "12/+3"[1..] == "2/+3"; }
    assert DigitsValue("12") == 12 by { assert "12"[..1] == "1"; }
    assert "12/+3"[..2] == "12" && "12/+3"[2..] == "/+3";
  }

  /** So `+1` and `+12/+3` give the same corners as `1` and `12/3`. */
  lemma SignedCornerExamples()
    ensures ReadCorner("+1", Format(true, false, false, false)) == Some(Vertex(1, None, None))
    ensures ReadCorner("+12/+3", Format(true, true, false, false)) == Some(Vertex(12, Some(3), None))
  {
    SignedFieldExamples();
    assert [0][1..] == [] && [1][1..] == [] && [0, 1][1..] == [1];
    assert "+1"[0..] == "+1" && "+12/+3"[0..] == "+12/+3" && "/+3"[1..] == "+3";
    assert Scan("", []) == Some([]);
    ScanCons("+1", [0], 1, "", []);
    ScanCons("/+3", [1], 3, "", []);
    assert [3] + [] == [3];
    ScanCons("+12/+3", [0, 1], 12, "/+3", [3]);
  }


  /** A decimal starts with a digit, never with a sign. */
  lemma DecimalHead(n: nat)
    ensures IsDigit(Decimal(n)[0])
  {
    DecimalDigits(n);
  }

  lemma {:induction false} DecimalValue(n: nat)
    ensures AllDigits(Decimal(n)) && DigitsValue(Decimal(n)) == n
  {
    DecimalDigits(n);
    if n >= 10 {
      var d := Decimal(n);
      assert d[..|d| - 1] == Decimal(n / 10);
      DecimalValue(n / 10);
    }
  }

  lemma {:induction false} DigitRunOf(d: seq<char>, rest: seq<char>)
    requires AllDigits(d)
    requires |rest| == 0 || !IsDigit(rest[0])
    ensures DigitRun(d + rest) == |d|
    decreases |d|
  {
    if |d| > 0 {
      assert (d + rest)[1..] == d[1..] + rest;
      DigitRunOf(d[1..], rest);
    } else {
      assert d + rest == rest;
    }
  }

  /** Reading a number back from its decimal text. */
  lemma ReadDecimal(n: nat, rest: seq<char>)
    requires |rest| == 0 || !IsDigit(rest[0])
    ensures ReadNumber(Decimal(n) + rest) == Some((n, rest))
  {
    var d := Decimal(n);
    DecimalDigits(n);
    DigitRunOf(d, rest);
    assert (d + rest)[..|d|] == d;
    assert (d + rest)[|d|..] == rest;
    DecimalValue(n);
  }

  // ---------------------------------------------------------------------
  // Vertex tokens

  /** A vertex as the attribute numbers of its token: position, texture
      coordinate and normal, each 1-based (`vs[i1-1]`); a missing one is
      default-initialised. */
  datatype Vertex = Vertex(pos: nat, tc: Option<nat>, norm: Option<nat>)

  /** The separators `processFace` reads before each number: one character
      between numbers, two in `a//b`. */
  function Pattern(f: Format): seq<nat>
  {
    if f.tc && f.norm then [0, 1, 1]
    else if f.tc then [0, 1]
    else if f.norm then [0, 2]
    else [0]
  }

  /** The chained reads `iss >> sep` (any one character) and `iss >> i`
      over one vertex token. */
  function Scan(s: seq<char>, pattern: seq<nat>): (r: Option<seq<nat>>)
    ensures r.Some? ==> |r.value| == |pattern|
  {
    if |pattern| == 0 then Some([])
    else if |s| < pattern[0] then None
    else match ReadField(s[pattern[0]..])
      case None => None
      case Some(p) =>
        match Scan(p.1, pattern[1..])
        case None => None
        case Some(more) => Some([p.0] + more)
  }

  /** The vertex numbered by the fields the pattern of `f` read. */
  function VertexOf(fields: seq<nat>, f: Format): Vertex
    requires |fields| == |Pattern(f)|
  {
    if f.tc && f.norm then Vertex(fields[0], Some(fields[1]), Some(fields[2]))
    else if f.tc then Vertex(fields[0], Some(fields[1]), None)
    else if f.norm then Vertex(fields[0], None, Some(fields[1]))
    else Vertex(fields[0], None, None)
  }

  const U32Limit: nat := 0x1_0000_0000

  /** A vertex token of a face in format `f`; a number too large for
      `uint32_t` fails the read. */
  function ReadCorner(tok: seq<char>, f: Format): Option<Vertex>
  {
    match Scan(tok, Pattern(f))
    case None => None
    case Some(fields) => if Fits(fields) then Some(VertexOf(fields, f)) else None
  }

  /** Whether every number fits in `uint32_t`. */
  function Fits(fields: seq<nat>): (b: bool)
    ensures b <==> forall i :: 0 <= i < |fields| ==> fields[i] < U32Limit
  {
    |fields| == 0 || (fields[0] < U32Limit && Fits(fields[1..]))
  }

  /** The token of a vertex in the file's own syntax. */
  function Text(v: Vertex): seq<char>
  {
    match (v.tc, v.norm)
    case (None, None) => Decimal(v.pos)
    case (Some(t), None) => Decimal(v.pos) + "/" + Decimal(t)
    case (None, Some(n)) => Decimal(v.pos) + "//" + Decimal(n)
    case (Some(t), Some(n)) => Decimal(v.pos) + "/" + Decimal(t) + "/" + Decimal(n)
  }

  /** The format a vertex's token has. */
  function Shape(v: Vertex): Format
  {
    Format(true, v.tc.Some?, v.norm.Some?, false)
  }

  /** The numbers of a vertex in token order. */
  function Fields(v: Vertex): seq<nat>
  {
    [v.pos] + (if v.tc.Some? then [v.tc.value] else []) + (if v.norm.Some? then [v.norm.value] else [])
  }

  lemma VertexOfFields(v: Vertex)
    ensures |Fields(v)| == |Pattern(Shape(v))| && VertexOf(Fields(v), Shape(v)) == v
  {
  }

  /** A separator, a number and a rest the remaining pattern reads. */
  lemma ScanStep(n: nat, sep: seq<char>, rest: seq<char>, pattern: seq<nat>, more: seq<nat>, s: seq<char>)
    requires |pattern| > 0 && pattern[0] == |sep| && s == sep + Decimal(n) + rest
    requires |rest| == 0 || !IsDigit(rest[0])
    requires Scan(rest, pattern[1..]) == Some(more)
    ensures Scan(s, pattern) == Some([n] + more)
  {
    ReadDecimal(n, rest);
    DecimalHead(n);
    AfterPrefix(sep, Decimal(n), rest);
    ScanCons(s, pattern, n, rest, more);
  }

  /** What follows a prefix of a concatenation. */
  lemma AfterPrefix<T>(a: seq<T>, b: seq<T>, c: seq<T>)
    ensures |a + b + c| >= |a| && (a + b + c)[|a|..] == b + c
  {
  }

  /** One number read at the head of the pattern, and the rest scanned. */
  lemma ScanCons(s: seq<char>, pattern: seq<nat>, x: nat, r: seq<char>, more: seq<nat>)
    requires |pattern| > 0 && |s| >= pattern[0]
    requires ReadField(s[pattern[0]..]) == Some((x, r))
    requires Scan(r, pattern[1..]) == Some(more)
    ensures Scan(s, pattern) == Some([x] + more)
  {
  }

  /** The scan reads back the numbers of a vertex's token. */
  lemma ScanText(v: Vertex)
    ensures Scan(Text(v), Pattern(Shape(v))) == Some(Fields(v))
  {
    match (v.tc, v.norm)
    case (None, None) =>
      assert Fields(v) == [v.pos];
      ScanPosition(v.pos);
    case (Some(t), None) =>
      assert Fields(v) == [v.pos, t];
      ScanTexCoord(v.pos, t);
    case (None, Some(n)) =>
      assert Fields(v) == [v.pos, n];
      ScanNormal(v.pos, n);
    case (Some(t), Some(n)) =>
      assert Fields(v) == [v.pos, t, n];
      ScanBoth(v.pos, t, n);
  }

  /** The empty sequence in front changes nothing; a two-part tail
      regroups. */
  lemma Concat<T>(a: seq<T>, b: seq<T>, c: seq<T>)
    ensures [] + a + b == a + b && ([] + a == a) && a + b + c == a + (b + c)
  {
  }

  /** A separator followed by one number: the last number of a token. */
  lemma ScanLast(n: nat, sep: seq<char>)
    requires |sep| <= 2
    ensures Scan(sep + Decimal(n), [|sep|]) == Some([n])
  {
    var e: seq<char> := [];
    assert [|sep|][1..] == [];
    assert Scan(e, []) == Some([]);
    assert sep + Decimal(n) == sep + Decimal(n) + e;
    ScanStep(n, sep, e, [|sep|], [], sep + Decimal(n));
    assert [n] + [] == [n];
  }

  lemma ScanPosition(p: nat)
    ensures Scan(Decimal(p), [0]) == Some([p])
  {
    ScanLast(p, []);
    Concat(Decimal(p), [], []);
  }

  /** A number, then a separator and a number already scanned. */
  lemma ScanPair(p: nat, sep: seq<char>, r: seq<char>, pattern: seq<nat>, more: seq<nat>, s: seq<char>)
    requires |sep| > 0 && sep[0] == '/' && |more| == 1 && r == sep + Decimal(more[0])
    requires |pattern| == 2 && pattern[0] == 0 && pattern[1] == |sep|
    requires Scan(r, [pattern[1]]) == Some(more) && s == Decimal(p) + r
    ensures Scan(s, pattern) == Some([p] + more)
  {
    assert pattern[1..] == [pattern[1]];
    Concat(Decimal(p), r, []);
    ScanStep(p, [], r, pattern, more, s);
  }

  lemma ScanTexCoord(p: nat, t: nat)
    ensures Scan(Decimal(p) + "/" + Decimal(t), [0, 1]) == Some([p, t])
  {
    ScanLast(t, "/");
    Concat(Decimal(p), "/", Decimal(t));
    ScanPair(p, "/", "/" + Decimal(t), [0, 1], [t], Decimal(p) + "/" + Decimal(t));
    assert [p] + [t] == [p, t];
  }

  lemma ScanNormal(p: nat, n: nat)
    ensures Scan(Decimal(p) + "//" + Decimal(n), [0, 2]) == Some([p, n])
  {
    ScanLast(n, "//");
    Concat(Decimal(p), "//", Decimal(n));
    ScanPair(p, "//", "//" + Decimal(n), [0, 2], [n], Decimal(p) + "//" + Decimal(n));
    assert [p] + [n] == [p, n];
  }

  /** The last two numbers of a `p/t/n` token. */
  lemma ScanTail(t: nat, n: nat)
    ensures Scan("/" + Decimal(t) + "/" + Decimal(n), [1, 1]) == Some([t, n])
  {
    ScanLast(n, "/");
    assert [1, 1][1..] == [1];
    Concat("/" + Decimal(t), "/", Decimal(n));
    ScanStep(t, "/", "/" + Decimal(n), [1, 1], [n], "/" + Decimal(t) + "/" + Decimal(n));
    assert [t] + [n] == [t, n];
  }

  lemma ScanBoth(p: nat, t: nat, n: nat)
    ensures Scan(Decimal(p) + "/" + Decimal(t) + "/" + Decimal(n), [0, 1, 1]) == Some([p, t, n])
  {
    var r1 := "/" + Decimal(t) + "/" + Decimal(n);
    ScanTail(t, n);
    Regroup(Decimal(p), "/", Decimal(t), "/", Decimal(n));
    assert [0, 1, 1][1..] == [1, 1];
    ScanStep(p, [], r1, [0, 1, 1], [t, n], Decimal(p) + "/" + Decimal(t) + "/" + Decimal(n));
    assert [p] + [t, n] == [p, t, n];
  }

  lemma Regroup<T>(a: seq<T>, b: seq<T>, c: seq<T>, d: seq<T>, f: seq<T>)
    ensures a + b + c + d + f == [] + a + (b + c + d + f)
  {
  }

  /** The format scan finds a vertex's shape in its token. */
  lemma FormatOfText(v: Vertex)
    ensures FormatOf(Text(v)) == Success(Shape(v))
  {
    var p := Decimal(v.pos);
    var s := Text(v);
    DecimalDigits(v.pos);
    match (v.tc, v.norm)
    case (None, None) =>
      FindNone(s, '/', 1);
    case (Some(t), None) =>
      DecimalDigits(t);
      FindAt(s, '/', 1, |p|);
      FindNone(s, '/', |p| + 2);
    case (None, Some(n)) =>
      FindAt(s, '/', 1, |p|);
    case (Some(t), Some(n)) =>
      var dt := Decimal(t);
      DecimalDigits(t);
      FindAt(s, '/', 1, |p|);
      FindAt(s, '/', |p| + 2, |p| + 1 + |dt|);
  }

  /** Reading a vertex's token in the format the scan finds in it gives the
      vertex back. */
  lemma ReadText(v: Vertex)
    requires forall i :: 0 <= i < |Fields(v)| ==> Fields(v)[i] < U32Limit
    ensures FormatOf(Text(v)) == Success(Shape(v))
    ensures ReadCorner(Text(v), Shape(v)) == Some(v)
  {
    FormatOfText(v);
    ScanText(v);
    VertexOfFields(v);
  }

  /** Different vertices have different tokens. */
  lemma TextInjective(a: Vertex, b: Vertex)
    requires Text(a) == Text(b)
    ensures a == b
  {
    FormatOfText(a);
    FormatOfText(b);
    ScanText(a);
    ScanText(b);
    VertexOfFields(a);
    VertexOfFields(b);
  }

  // ---------------------------------------------------------------------
  // The vertex store

  /** The vertices, the index list and the map from a vertex's key to
      its index. */
  datatype Store = Store(vertices: seq<Vertex>, indices: seq<nat>, keys: map<seq<char>, nat>)

  const EmptyStore := Store([], [], map[])

  /** Every key names the vertex it was made from, every vertex is under
      its own key, and every index names a vertex. */
  ghost predicate StoreValid(s: Store)
  {
    && (forall key {:trigger s.keys[key]} :: key in s.keys ==> s.keys[key] < |s.vertices| && Text(s.vertices[s.keys[key]]) == key)
    && (forall i {:trigger Text(s.vertices[i])} :: 0 <= i < |s.vertices| ==> Text(s.vertices[i]) in s.keys && s.keys[Text(s.vertices[i])] == i)
    && (forall j :: 0 <= j < |s.indices| ==> s.indices[j] < |s.vertices|)
  }

  /** A valid store holds each vertex once. */
  lemma StoreDistinct(s: Store, i: nat, j: nat)
    requires StoreValid(s) && i < j < |s.vertices|
    ensures s.vertices[i] != s.vertices[j]
  {
    assert s.keys[Text(s.vertices[i])] == i && s.keys[Text(s.vertices[j])] == j;
  }

  /** One vertex token of a face: the index of the vertex already stored
      under its key, or the index of a new last vertex. */
  function Corner(s: Store, v: Vertex): (r: (Store, nat))
    ensures r.0.indices == s.indices && s.vertices <= r.0.vertices
  {
    var key := Text(v);
    if key in s.keys then
      (s, s.keys[key])
    else
      (Store(s.vertices + [v], s.indices, s.keys[key := |s.vertices|]), |s.vertices|)
  }

  /** A key in a valid store names the vertex it was made from, and a
      stored vertex's key is in the store. */
  lemma CornerLookup(s: Store, v: Vertex)
    requires StoreValid(s)
    ensures Text(v) in s.keys <==> v in s.vertices
    ensures Text(v) in s.keys ==> s.vertices[s.keys[Text(v)]] == v
  {
    if Text(v) in s.keys {
      TextInjective(s.vertices[s.keys[Text(v)]], v);
    }
    if v in s.vertices {
      var i :| 0 <= i < |s.vertices| && s.vertices[i] == v;
    }
  }

  /** Adding a vertex that is not stored, under its key, keeps the store
      valid. */
  lemma CornerInsert(s: Store, v: Vertex)
    requires StoreValid(s) && v !in s.vertices
    ensures StoreValid(Store(s.vertices + [v], s.indices, s.keys[Text(v) := |s.vertices|]))
  {
    CornerLookup(s, v);
    var t := Store(s.vertices + [v], s.indices, s.keys[Text(v) := |s.vertices|]);
    forall i | 0 <= i < |t.vertices|
      ensures Text(t.vertices[i]) in t.keys && t.keys[Text(t.vertices[i])] == i
    {
      if i < |s.vertices| {
        assert t.vertices[i] == s.vertices[i];
        if Text(s.vertices[i]) == Text(v) {
          TextInjective(s.vertices[i], v);
        }
      }
    }
  }

  /** A corner names its vertex, keeps the store valid, and adds a vertex
      exactly when it is not yet stored. */
  lemma CornerSpec(s: Store, v: Vertex)
    requires StoreValid(s)
    ensures var (t, k) := Corner(s, v);
      && StoreValid(t) && k < |t.vertices| && t.vertices[k] == v
      && (v in s.vertices <==> t == s)
      && |t.vertices| == |s.vertices| + (if v in s.vertices then 0 else 1)
  {
    CornerLookup(s, v);
    if v !in s.vertices {
      CornerInsert(s, v);
    }
  }

  /** The vertex tokens of a face, read in order, or nothing when one of
      them cannot be read. */
  function ReadCorners(toks: seq<seq<char>>, f: Format): (r: Option<seq<Vertex>>)
    ensures r.Some? ==> |r.value| == |toks|
  {
    if |toks| == 0 then Some([])
    else
      match ReadCorners(toks[..|toks| - 1], f)
      case None => None
      case Some(vs) =>
        match ReadCorner(toks[|toks| - 1], f)
        case None => None
        case Some(v) => Some(vs + [v])
  }

  /** The tokens are read one by one: all are read exactly when each one
      is, and each gives its own vertex. */
  lemma {:induction false} ReadCornersSpec(toks: seq<seq<char>>, f: Format)
    ensures ReadCorners(toks, f).Some? ==>
      forall i :: 0 <= i < |toks| ==> ReadCorner(toks[i], f) == Some(ReadCorners(toks, f).value[i])
    ensures ReadCorners(toks, f).None? <==> exists i :: 0 <= i < |toks| && ReadCorner(toks[i], f).None?
  {
    if |toks| > 0 {
      var init := toks[..|toks| - 1];
      ReadCornersSpec(init, f);
      if ReadCorners(init, f).None? {
        var i :| 0 <= i < |init| && ReadCorner(init[i], f).None?;
        assert toks[i] == init[i];
      }
      if ReadCorners(toks, f).Some? {
        var vs := ReadCorners(toks, f).value;
        forall i | 0 <= i < |toks| ensures ReadCorner(toks[i], f) == Some(vs[i]) {
          if i < |init| {
            assert toks[i] == init[i];
          }
        }
      } else if ReadCorners(init, f).Some? {
        assert ReadCorner(toks[|toks| - 1], f).None?;
      }
      if exists i :: 0 <= i < |toks| && ReadCorner(toks[i], f).None? {
        var i :| 0 <= i < |toks| && ReadCorner(toks[i], f).None?;
        if i < |init| {
          assert toks[i] == init[i];
        }
      }
    }
  }

  /** The vertex a read face gives for one token. */
  lemma ReadCornersAt(toks: seq<seq<char>>, f: Format, c: nat)
    requires ReadCorners(toks, f).Some? && c < |toks|
    ensures ReadCorner(toks[c], f) == Some(ReadCorners(toks, f).value[c])
  {
    ReadCornersSpec(toks, f);
  }

  /** One unreadable token makes the whole face unreadable. */
  lemma ReadCornersNone(toks: seq<seq<char>>, i: nat, f: Format)
    requires i < |toks| && ReadCorner(toks[i], f).None?
    ensures ReadCorners(toks, f).None?
  {
    ReadCornersSpec(toks, f);
  }

  /** Reading one more token appends its corner. */
  lemma ReadCornersNext(toks: seq<seq<char>>, i: nat, f: Format, vs: seq<Vertex>, v: Vertex)
    requires i < |toks| && ReadCorners(toks[..i], f) == Some(vs) && ReadCorner(toks[i], f) == Some(v)
    ensures ReadCorners(toks[..i + 1], f) == Some(vs + [v])
  {
    assert toks[..i + 1][..i] == toks[..i];
  }

  /** The corners of a face, stored in order: the store afterwards and the
      index of each corner. */
  function Corners(s: Store, vs: seq<Vertex>): (r: (Store, seq<nat>))
    ensures r.0.indices == s.indices && s.vertices <= r.0.vertices && |r.1| == |vs|
  {
    if |vs| == 0 then (s, [])
    else
      var (s1, face) := Corners(s, vs[..|vs| - 1]);
      var (s2, k) := Corner(s1, vs[|vs| - 1]);
      (s2, face + [k])
  }

  /** The corners of a face keep the store valid and each names its
      vertex. */
  lemma {:induction false} CornersSpec(s: Store, vs: seq<Vertex>)
    requires StoreValid(s)
    ensures StoreValid(Corners(s, vs).0) && Names(Corners(s, vs).0.vertices, Corners(s, vs).1, vs)
  {
    if |vs| > 0 {
      var init, v := vs[..|vs| - 1], vs[|vs| - 1];
      CornersSpec(s, init);
      var (s1, face) := Corners(s, init);
      CornerSpec(s1, v);
      var (t, k) := Corner(s1, v);
      assert Corners(s, vs) == (t, face + [k]);
      KeepNames(s1.vertices, t.vertices, face, init, k, v);
      assert init + [v] == vs;
    }
  }

  /** Each index of `face` names, in `vertices`, the vertex at the same
      place in `vs`. */
  ghost predicate Names(vertices: seq<Vertex>, face: seq<nat>, vs: seq<Vertex>)
  {
    |face| == |vs| && forall i :: 0 <= i < |vs| ==> face[i] < |vertices| && vertices[face[i]] == vs[i]
  }

  lemma KeepNames(a: seq<Vertex>, b: seq<Vertex>, face: seq<nat>, vs: seq<Vertex>, k: nat, v: Vertex)
    requires a <= b && k < |b| && b[k] == v && Names(a, face, vs)
    ensures Names(b, face + [k], vs + [v])
  {
    forall i | 0 <= i < |vs| + 1 ensures (face + [k])[i] < |b| && b[(face + [k])[i]] == (vs + [v])[i] {
      if i < |vs| {
        assert b[face[i]] == a[face[i]];
      }
    }
  }

  /** Storing one more corner. */
  lemma CornersNext(s: Store, vs: seq<Vertex>, v: Vertex, t: Store, face: seq<nat>)
    requires Corners(s, vs) == (t, face)
    ensures Corners(s, vs + [v]) == (Corner(t, v).0, face + [Corner(t, v).1])
  {
    assert (vs + [v])[..|vs|] == vs;
  }

  /** The corners each index of a face refers to: a triangle, or a quad
      split into two triangles along its first diagonal. */
  function Order(quad: bool): seq<nat>
  {
    if quad then [0, 1, 2, 0, 2, 3] else [0, 1, 2]
  }

  lemma OrderBound(quad: bool, j: nat)
    requires j < |Order(quad)|
    ensures Order(quad)[j] < if quad then 4 else 3
  {
  }

  function FaceIndices(face: seq<nat>, quad: bool): (r: seq<nat>)
    requires |face| == if quad then 4 else 3
    ensures |r| == |Order(quad)| && forall j :: 0 <= j < |r| ==> r[j] == face[Order(quad)[j]]
  {
    [face[0], face[1], face[2]] + if quad then [face[0], face[2], face[3]] else []
  }

  /** The corners of a read face stored and indexed. */
  function StoreFace(s: Store, vs: seq<Vertex>, quad: bool): Store
    requires |vs| == if quad then 4 else 3
  {
    var (s1, face) := Corners(s, vs);
    s1.(indices := s1.indices + FaceIndices(face, quad))
  }

  /** A stored face keeps the store valid, keeps what was stored, adds
      three indices for a triangle and six for a quad, and each new index
      names the corner its place in the split says. */
  lemma StoreFaceSpec(s: Store, vs: seq<Vertex>, quad: bool)
    requires StoreValid(s) && |vs| == if quad then 4 else 3
    ensures var t := StoreFace(s, vs, quad);
      && StoreValid(t) && s.vertices <= t.vertices && s.indices <= t.indices
      && |t.indices| == |s.indices| + |Order(quad)|
      && forall j :: 0 <= j < |Order(quad)| ==>
           t.indices[|s.indices| + j] < |t.vertices| && t.vertices[t.indices[|s.indices| + j]] == vs[Order(quad)[j]]
  {
    CornersSpec(s, vs);
    var (s1, face) := Corners(s, vs);
    AppendNamed(s1.vertices, s.indices, face, vs, quad);
    assert StoreFace(s, vs, quad) == s1.(indices := s.indices + FaceIndices(face, quad));
  }

  /** The indices of a face name its corners as the split says. */
  lemma AppendNamed(vertices: seq<Vertex>, before: seq<nat>, face: seq<nat>, vs: seq<Vertex>, quad: bool)
    requires |vs| == (if quad then 4 else 3) && Names(vertices, face, vs)
    requires forall j :: 0 <= j < |before| ==> before[j] < |vertices|
    ensures var all := before + FaceIndices(face, quad);
      && (forall j :: 0 <= j < |all| ==> all[j] < |vertices|)
      && forall j :: 0 <= j < |Order(quad)| ==> vertices[all[|before| + j]] == vs[Order(quad)[j]]
  {
    var added := FaceIndices(face, quad);
    var all := before + added;
    forall j | 0 <= j < |all| ensures all[j] < |vertices| {
      if j >= |before| {
        assert all[j] == added[j - |before|];
      }
    }
    forall j | 0 <= j < |Order(quad)| ensures vertices[all[|before| + j]] == vs[Order(quad)[j]] {
      assert all[|before| + j] == added[j];
    }
  }

  /** `processFace`: three or four vertex tokens of `sub`, read as the
      format says, stored and indexed. A format without `FPos` is the
      `default` case. */
  function AddFace(s: Store, f: Format, sub: seq<seq<char>>): Result<Store, Error>
    requires |sub| == 4
  {
    if !f.pos then Failure(RuntimeError)
    else
      var n := if f.quad then 4 else 3;
      match ReadCorners(sub[..n], f)
      case None => Failure(Unreadable)
      case Some(vs) => Success(StoreFace(s, vs, f.quad))
  }

  /** A face fails exactly when the format has no position or one of its
      vertex tokens cannot be read. */
  lemma AddFaceFails(s: Store, f: Format, sub: seq<seq<char>>)
    requires |sub| == 4
    ensures AddFace(s, f, sub) == Failure(RuntimeError) <==> !f.pos
    ensures AddFace(s, f, sub) == Failure(Unreadable) <==>
      f.pos && exists i :: 0 <= i < (if f.quad then 4 else 3) && ReadCorner(sub[i], f).None?
  {
    var n := if f.quad then 4 else 3;
    ReadCornersSpec(sub[..n], f);
    if f.pos && ReadCorners(sub[..n], f).None? {
      var i :| 0 <= i < n && ReadCorner(sub[..n][i], f).None?;
      assert sub[..n][i] == sub[i];
    }
    if f.pos && exists i :: 0 <= i < n && ReadCorner(sub[i], f).None? {
      var i :| 0 <= i < n && ReadCorner(sub[i], f).None?;
      assert sub[..n][i] == sub[i];
    }
  }

  /** A stored face keeps the store valid, adds three indices for a
      triangle and six for a quad, and keeps what was stored. */
  lemma AddFaceStores(s: Store, f: Format, sub: seq<seq<char>>, t: Store)
    requires |sub| == 4 && StoreValid(s) && AddFace(s, f, sub) == Success(t)
    ensures StoreValid(t)
    ensures |t.indices| == |s.indices| + (if f.quad then 6 else 3)
    ensures s.vertices <= t.vertices && s.indices <= t.indices
  {
    var n := if f.quad then 4 else 3;
    StoreFaceSpec(s, ReadCorners(sub[..n], f).value, f.quad);
  }

  /** Each index a face adds names the vertex its token reads as. */
  lemma AddFaceNames(s: Store, f: Format, sub: seq<seq<char>>, t: Store, j: nat)
    requires |sub| == 4 && StoreValid(s) && AddFace(s, f, sub) == Success(t)
    requires j < |Order(f.quad)|
    ensures |s.indices| + j < |t.indices| && t.indices[|s.indices| + j] < |t.vertices|
    ensures ReadCorner(sub[Order(f.quad)[j]], f) == Some(t.vertices[t.indices[|s.indices| + j]])
  {
    var n := if f.quad then 4 else 3;
    var vs := ReadCorners(sub[..n], f).value;
    var c := Order(f.quad)[j];
    OrderBound(f.quad, j);
    ReadCornersAt(sub[..n], f, c);
    assert sub[..n][c] == sub[c];
    StoreFaceSpec(s, vs, f.quad);
  }

  // ---------------------------------------------------------------------
  // The loader

  /** The input lines the loader tells apart; a face line is its vertex
      tokens and whether white space follows the last one. */
  datatype Line =
    | Position
    | TexCoord
    | Normal
    | Face(tokens: seq<seq<char>>, trailingSpace: bool)
    | Other

  /** The loader's state between lines: the counts of `v`, `vt` and `vn`
      lines, the face format, the four `sub` strings and the store. */
  datatype Loading = Loading(positions: nat, texcoords: nat, normals: nat,
                             format: Format, sub: seq<seq<char>>, store: Store)

  const Initial := Loading(0, 0, 0, FNone, ["", "", "", ""], EmptyStore)

  ghost predicate LoadingValid(l: Loading)
  {
    |l.sub| == 4 && StoreValid(l.store) && (l.format == FNone || l.format.pos)
  }

  /** The stream has run out once the first three tokens are read: fewer
      than three, or exactly three with nothing after them. */
  function ThreeAtEnd(toks: seq<seq<char>>, space: bool): bool
  {
    |toks| < 3 || (|toks| == 3 && !space)
  }

  /** The `sub` strings after a face line: each token read replaces its
      string, a missing one leaves the old string. */
  function ReadSub(sub: seq<seq<char>>, toks: seq<seq<char>>, space: bool): (r: seq<seq<char>>)
    requires |sub| == 4
    ensures |r| == 4
    ensures forall k :: 0 <= k < 4 ==> r[k] == (if k < |toks| && (k < 3 || !ThreeAtEnd(toks, space)) then toks[k] else sub[k])
  {
    var s0 := if |toks| > 0 then sub[0 := toks[0]] else sub;
    var s1 := if |toks| > 1 then s0[1 := toks[1]] else s0;
    var s2 := if |toks| > 2 then s1[2 := toks[2]] else s1;
    if !ThreeAtEnd(toks, space) && |toks| > 3 then s2[3 := toks[3]] else s2
  }

  /** Whether the face is a quad: a fourth token that ends the line, an
      error when anything follows it. */
  function QuadOf(toks: seq<seq<char>>, space: bool): (r: Result<bool, Error>)
    ensures r == Success(true) <==> (|toks| == 4 && !space) || (|toks| == 3 && space)
    ensures r == Success(false) <==> ThreeAtEnd(toks, space)
    ensures r.Failure? <==> |toks| > 4 || (|toks| == 4 && space)
  {
    if ThreeAtEnd(toks, space) then Success(false)
    else if |toks| == 3 || (|toks| == 4 && !space) then Success(true)
    else Failure(FileExcept)
  }

  /** The face format: detected from the first token of the first face,
      then kept. */
  function FaceFormat(format: Format, first: seq<char>): Result<Format, Error>
  {
    if format == FNone then FormatOf(first) else Success(format)
  }

  /** The start of a face line: the tokens are read into the corner slots,
      the format is detected if none is known, and the quad test is made.
      Each face is a quad or not by its own tokens (see README, Findings). */
  function FaceSetup(l: Loading, toks: seq<seq<char>>, space: bool): Result<(Format, seq<seq<char>>), Error>
    requires |l.sub| == 4
  {
    var sub := ReadSub(l.sub, toks, space);
    var format :- FaceFormat(l.format, sub[0]);
    var quad :- QuadOf(toks, space);
    Success((format.(quad := quad), sub))
  }

  /** A face line: its start, then the face is stored. */
  function FaceStep(l: Loading, toks: seq<seq<char>>, space: bool): Result<Loading, Error>
    requires |l.sub| == 4
  {
    var setup :- FaceSetup(l, toks, space);
    var store :- AddFace(l.store, setup.0, setup.1);
    Success(l.(format := setup.0, sub := setup.1, store := store))
  }

  /** One line of the file. */
  function Step(l: Loading, line: Line): Result<Loading, Error>
    requires |l.sub| == 4
  {
    match line
    case Position => Success(l.(positions := l.positions + 1))
    case TexCoord => Success(l.(texcoords := l.texcoords + 1))
    case Normal => Success(l.(normals := l.normals + 1))
    case Face(toks, space) => FaceStep(l, toks, space)
    case Other => Success(l)
  }

  /** The lines in order, stopping at the first error. */
  function Run(l: Loading, lines: seq<Line>): (r: Result<Loading, Error>)
    requires |l.sub| == 4
    ensures r.Success? ==> |r.value.sub| == 4
  {
    if |lines| == 0 then Success(l)
    else
      match Run(l, lines[..|lines| - 1])
      case Failure(e) => Failure(e)
      case Success(m) => Step(m, lines[|lines| - 1])
  }

  /** A face line keeps the state valid; the format detected by the first
      face is kept by every later one, up to the quad flag. */
  lemma FaceStepValid(l: Loading, toks: seq<seq<char>>, space: bool)
    requires LoadingValid(l)
    ensures FaceStep(l, toks, space) != Failure(RuntimeError)
    ensures FaceStep(l, toks, space).Success? ==> LoadingValid(FaceStep(l, toks, space).value)
    ensures FaceStep(l, toks, space).Success? ==> FaceStep(l, toks, space).value.format.pos
    ensures FaceStep(l, toks, space).Success? && l.format != FNone ==>
      FaceStep(l, toks, space).value.format.(quad := false) == l.format.(quad := false)
  {
    var sub := ReadSub(l.sub, toks, space);
    var ff := FaceFormat(l.format, sub[0]);
    var q := QuadOf(toks, space);
    if ff.Success? && q.Success? {
      var f := ff.value.(quad := q.value);
      assert f.pos;
      AddFaceFails(l.store, f, sub);
      var a := AddFace(l.store, f, sub);
      if a.Success? {
        AddFaceStores(l.store, f, sub, a.value);
      }
    }
  }

  /** A face line adds six indices when its own tokens make a quad and
      three otherwise. */
  lemma FaceStepIndices(l: Loading, toks: seq<seq<char>>, space: bool)
    requires LoadingValid(l) && FaceStep(l, toks, space).Success?
    ensures |FaceStep(l, toks, space).value.store.indices| ==
      |l.store.indices| + (if QuadOf(toks, space) == Success(true) then 6 else 3)
  {
    var sub := ReadSub(l.sub, toks, space);
    var f := FaceFormat(l.format, sub[0]).value.(quad := QuadOf(toks, space).value);
    AddFaceStores(l.store, f, sub, AddFace(l.store, f, sub).value);
  }

  /** Every state reached from a valid one is valid, and the `default`
      case of `processFace` is never taken. */
  lemma {:induction false} RunValid(l: Loading, lines: seq<Line>)
    requires LoadingValid(l)
    ensures Run(l, lines) != Failure(RuntimeError)
    ensures Run(l, lines).Success? ==> LoadingValid(Run(l, lines).value)
  {
    if |lines| > 0 {
      RunValid(l, lines[..|lines| - 1]);
      var prev := Run(l, lines[..|lines| - 1]);
      if prev.Success? && lines[|lines| - 1].Face? {
        FaceStepValid(prev.value, lines[|lines| - 1].tokens, lines[|lines| - 1].trailingSpace);
      }
    }
  }

  /** A whole file: every index of the result names a stored vertex, no
      vertex is stored twice, and `processFace`'s `default` case is never
      reached. */
  lemma LoadValid(lines: seq<Line>)
    ensures Run(Initial, lines) != Failure(RuntimeError)
    ensures Run(Initial, lines).Success? ==>
      var s := Run(Initial, lines).value.store;
      && (forall j :: 0 <= j < |s.indices| ==> s.indices[j] < |s.vertices|)
      && (forall i, k :: 0 <= i < k < |s.vertices| ==> s.vertices[i] != s.vertices[k])
  {
    RunValid(Initial, lines);
    if Run(Initial, lines).Success? {
      var s := Run(Initial, lines).value.store;
      forall i, k | 0 <= i < k < |s.vertices| ensures s.vertices[i] != s.vertices[k] {
        StoreDistinct(s, i, k);
      }
    }
  }

  /** The loader's state; the lambda's captured variables are its fields. */
  class Loader {
    var positions: nat
    var texcoords: nat
    var normals: nat
    var format: Format
    var sub: seq<seq<char>>
    var vertices: seq<Vertex>
    var indices: seq<nat>
    var keys: map<seq<char>, nat>

    function State(): Store
      reads this
    {
      Store(vertices, indices, keys)
    }

    function Snapshot(): Loading
      reads this
    {
      Loading(positions, texcoords, normals, format, sub, State())
    }

    ghost predicate Valid()
      reads this
    {
      LoadingValid(Snapshot())
    }

    constructor ()
      ensures Snapshot() == Initial && Valid()
    {
      positions, texcoords, normals := 0, 0, 0;
      format := FNone;
      sub := ["", "", "", ""];
      vertices, indices, keys := [], [], map[];
    }

    /** One corner of a face (`processFace`): its vertex is looked up by key, and stored
        under a new index when it is new. */
    method StoreCorner(v: Vertex) returns (k: nat)
      modifies this
      ensures (State(), k) == Corner(old(State()), v)
      ensures positions == old(positions) && texcoords == old(texcoords) && normals == old(normals)
      ensures format == old(format) && sub == old(sub)
    {
      var key := Text(v);
      if key in keys {
        k := keys[key];
      } else {
        k := |vertices|;
        keys := keys[key := |vertices|];
        vertices := vertices + [v];
      }
    }

    /** The corners of a face, read and stored one by one; `ok` is false
        when a token cannot be read. */
    method StoreCorners(toks: seq<seq<char>>, fmt: Format) returns (face: seq<nat>, ghost vs: seq<Vertex>, ok: bool)
      modifies this
      ensures ok <==> ReadCorners(toks, fmt).Some?
      ensures ok ==> ReadCorners(toks, fmt) == Some(vs) && Corners(old(State()), vs) == (State(), face)
      ensures positions == old(positions) && texcoords == old(texcoords) && normals == old(normals)
      ensures format == old(format) && sub == old(sub)
    {
      face, vs := [], [];
      ghost var s0 := State();
      var i := 0;
      while i < |toks|
        invariant 0 <= i <= |toks|
        invariant positions == old(positions) && texcoords == old(texcoords) && normals == old(normals)
        invariant format == old(format) && sub == old(sub)
        invariant ReadCorners(toks[..i], fmt) == Some(vs)
        invariant Corners(s0, vs) == (State(), face)
      {
        var c := ReadCorner(toks[i], fmt);
        if c.None? {
          ReadCornersNone(toks, i, fmt);
          return face, vs, false;
        }
        var v := c.value;
        ReadCornersNext(toks, i, fmt, vs, v);
        CornersNext(s0, vs, v, State(), face);
        var k := StoreCorner(v);
        face := face + [k];
        vs := vs + [v];
        i := i + 1;
      }
      assert toks[..i] == toks;
      return face, vs, true;
    }

    method ProcessFace() returns (r: Outcome<Error>)
      requires |sub| == 4
      modifies this
      ensures AddFace(old(State()), old(format), old(sub)) ==
        if r.Pass? then Success(State()) else Failure(r.error)
      ensures positions == old(positions) && texcoords == old(texcoords) && normals == old(normals)
      ensures format == old(format) && sub == old(sub)
    {
      if !format.pos {
        return Fail(RuntimeError);
      }
      var n := if format.quad then 4 else 3;
      ghost var s0 := State();
      var face, vs, ok := StoreCorners(sub[..n], format);
      if !ok {
        return Fail(Unreadable);
      }
      indices := indices + FaceIndices(face, format.quad);
      assert State() == StoreFace(s0, vs, format.quad);
      return Pass;
    }

    /** The tokens of a face line are read into the corner slots, the
        format is detected when none is known yet, and the quad test is
        made. */
    method SetupFace(toks: seq<seq<char>>, space: bool) returns (r: Outcome<Error>)
      requires |sub| == 4
      modifies this
      ensures FaceSetup(old(Snapshot()), toks, space) ==
        if r.Pass? then Success((format, sub)) else Failure(r.error)
      ensures positions == old(positions) && texcoords == old(texcoords) && normals == old(normals)
      ensures State() == old(State()) && |sub| == 4
    {
      if |toks| > 0 { sub := sub[0 := toks[0]]; }
      if |toks| > 1 { sub := sub[1 := toks[1]]; }
      if |toks| > 2 { sub := sub[2 := toks[2]]; }
      if format == FNone {
        var detected := DetectFormat(sub[0]);
        if detected.Failure? {
          return Fail(detected.error);
        }
        format := detected.value;
      }
      var quad := false;
      if !(|toks| < 3 || (|toks| == 3 && !space)) {
        if |toks| > 3 { sub := sub[3 := toks[3]]; }
        if !(|toks| == 3 || (|toks| == 4 && !space)) {
          return Fail(FileExcept);
        }
        quad := true;
      }
      format := format.(quad := quad);
      return Pass;
    }

    /** The `f` branch of the line loop. */
    method FaceLine(toks: seq<seq<char>>, space: bool) returns (r: Outcome<Error>)
      requires |sub| == 4
      modifies this
      ensures FaceStep(old(Snapshot()), toks, space) ==
        if r.Pass? then Success(Snapshot()) else Failure(r.error)
    {
      r := SetupFace(toks, space);
      if r.Fail? {
        return;
      }
      r := ProcessFace();
    }

    /** One line of the file. */
    method Feed(line: Line) returns (r: Outcome<Error>)
      requires Valid()
      modifies this
      ensures Step(old(Snapshot()), line) == if r.Pass? then Success(Snapshot()) else Failure(r.error)
      ensures r.Pass? ==> Valid()
    {
      match line
      case Position =>
        positions := positions + 1;
        return Pass;
      case TexCoord =>
        texcoords := texcoords + 1;
        return Pass;
      case Normal =>
        normals := normals + 1;
        return Pass;
      case Face(toks, space) =>
        FaceStepValid(Snapshot(), toks, space);
        r := FaceLine(toks, space);
      case Other =>
        return Pass;
    }
  }

  /** The branch line `i` takes, and the stream after it, from the stream
      the lines before it leave. */
  method ReadLine(lines: seq<RawLine>, i: nat, st: Stream, numbers: seq<char> -> bool) returns (line: Line, next: Stream)
    requires i < |lines| && Read(Fresh, lines[..i], numbers).1 == st
    ensures Read(Fresh, lines[..i + 1], numbers) == (Read(Fresh, lines[..i], numbers).0 + [line], next)
  {
    var text := Buffer(lines[i]);
    line, next := Classify(st, text, numbers(text)).0, Classify(st, text, numbers(text)).1;
    ReadNext(lines, i, numbers);
  }

  /** `loadOBJ` on the text of a file: the store after the last line the
      loop reads, or the first error. `numbers` gives the outcome of the
      floating-point reads of a line from its text. */
  method Load(file: seq<char>, numbers: seq<char> -> bool) returns (r: Result<Store, Error>)
    ensures r == match LoadFile(file, numbers) case Success(l) => Success(l.store) case Failure(e) => Failure(e)
  {
    r := ReadLines(Readable(Lines(file)), numbers);
  }

  /** The line loop of `loadOBJ` over the lines `getline` hands it. */
  method ReadLines(lines: seq<RawLine>, numbers: seq<char> -> bool) returns (r: Result<Store, Error>)
    ensures r == match Run(Initial, Read(Fresh, lines, numbers).0) case Success(l) => Success(l.store) case Failure(e) => Failure(e)
  {
    var loader := new Loader();
    var st := Fresh;
    var i := 0;
    while i < |lines|
      invariant 0 <= i <= |lines|
      invariant loader.Valid()
      invariant Read(Fresh, lines[..i], numbers).1 == st
      invariant Run(Initial, Read(Fresh, lines[..i], numbers).0) == Success(loader.Snapshot())
    {
      var o;
      o, st := NextLine(loader, lines, i, st, numbers);
      if o.Fail? {
        ReadPrefix(Fresh, lines, i + 1, numbers);
        PrefixFailureSticks(Initial, Read(Fresh, lines, numbers).0, Read(Fresh, lines[..i + 1], numbers).0);
        return Failure(o.error);
      }
      i := i + 1;
    }
    assert lines[..i] == lines;
    return Success(loader.State());
  }

  /** One pass of the line loop: line `i` is read from the stream the lines
      before it leave, and its branch is taken. */
  method NextLine(loader: Loader, lines: seq<RawLine>, i: nat, st: Stream, numbers: seq<char> -> bool)
    returns (o: Outcome<Error>, next: Stream)
    requires i < |lines| && loader.Valid()
    requires Read(Fresh, lines[..i], numbers).1 == st
    requires Run(Initial, Read(Fresh, lines[..i], numbers).0) == Success(loader.Snapshot())
    modifies loader
    ensures Read(Fresh, lines[..i + 1], numbers).1 == next
    ensures Run(Initial, Read(Fresh, lines[..i + 1], numbers).0) ==
      if o.Pass? then Success(loader.Snapshot()) else Failure(o.error)
    ensures o.Pass? ==> loader.Valid()
  {
    var line;
    ghost var seen := Read(Fresh, lines[..i], numbers).0;
    line, next := ReadLine(lines, i, st, numbers);
    o := loader.Feed(line);
    assert (seen + [line])[..|seen|] == seen;
  }

  /** A run whose first lines fail fails with their error. */
  lemma PrefixFailureSticks(l: Loading, lines: seq<Line>, prefix: seq<Line>)
    requires |l.sub| == 4 && |prefix| <= |lines| && lines[..|prefix|] == prefix
    requires Run(l, prefix).Failure?
    ensures Run(l, lines) == Run(l, prefix)
  {
    FailureSticks(l, lines, |prefix|);
  }

  /** Once a line fails, the run fails with its error. */
  lemma {:induction false} FailureSticks(l: Loading, lines: seq<Line>, i: nat)
    requires |l.sub| == 4 && i <= |lines| && Run(l, lines[..i]).Failure?
    ensures Run(l, lines) == Run(l, lines[..i])
    decreases |lines| - i
  {
    if i < |lines| {
      assert lines[..i + 1][..i] == lines[..i];
      FailureSticks(l, lines, i + 1);
    } else {
      assert lines[..i] == lines;
    }
  }

  // ---------------------------------------------------------------------
  // The lines of the file and the word stream

  /** The size of the line buffer: `getline` stores at most 255 characters
      of a line in it, and a longer line fails the file stream, which ends
      the loop. */
  const LineSize: nat := 256

  /** A line of the file: its characters and whether a newline ended it
      (only the last line of a file can lack one). */
  datatype RawLine = RawLine(chars: seq<char>, newline: bool)

  /** The lines `getline` splits a file into; an empty rest after the last
      newline is not a line. */
  function Lines(file: seq<char>): seq<RawLine>
    decreases |file|
  {
    if |file| == 0 then []
    else match Find(file, '\n', 0)
      case None => [RawLine(file, false)]
      case Some(k) => [RawLine(file[..k], true)] + Lines(file[k + 1..])
  }

  /** The lines put back together. */
  function Join(lines: seq<RawLine>): seq<char>
  {
    if |lines| == 0 then []
    else lines[0].chars + (if lines[0].newline then "\n" else "") + Join(lines[1..])
  }

  /** A file with a newline splits at its first one. */
  lemma LinesStep(file: seq<char>, k: nat)
    requires |file| > 0 && Find(file, '\n', 0) == Some(k)
    ensures k < |file| && Lines(file) == [RawLine(file[..k], true)] + Lines(file[k + 1..])
  {
  }

  /** The text before a first newline holds none, and the file is that
      text, the newline and the rest. */
  lemma SplitAt(file: seq<char>, k: nat)
    requires k < |file| && file[k] == '\n'
    requires forall j :: 0 <= j < k ==> file[j] != '\n'
    ensures '\n' !in file[..k]
    ensures file == file[..k] + "\n" + file[k + 1..]
  {
    var line := file[..k];
    forall j | 0 <= j < |line| ensures line[j] != '\n' {
      assert line[j] == file[j];
    }
    assert file[k..] == [file[k]] + file[k + 1..];
    assert file == line + file[k..];
  }

  /** Splitting loses nothing: the lines give the file back, no line holds
      a newline, and every line but the last ends with one. */
  lemma {:induction false} LinesRoundTrip(file: seq<char>)
    ensures Join(Lines(file)) == file
    ensures forall i :: 0 <= i < |Lines(file)| ==> '\n' !in Lines(file)[i].chars
    ensures forall i :: 0 <= i < |Lines(file)| - 1 ==> Lines(file)[i].newline
    decreases |file|
  {
    if |file| > 0 {
      var found := Find(file, '\n', 0);
      if found.None? {
        assert '\n' !in file;
        assert Lines(file) == [RawLine(file, false)];
      } else {
        var k := found.value;
        LinesStep(file, k);
        SplitAt(file, k);
        var line := file[..k];
        var rest := file[k + 1..];
        LinesRoundTrip(rest);
        var lines := Lines(file);
        var later := Lines(rest);
        assert lines[1..] == later;
        assert Join(lines) == line + "\n" + Join(later);
        forall i | 0 <= i < |lines| ensures '\n' !in lines[i].chars && (i < |lines| - 1 ==> lines[i].newline) {
          if i > 0 {
            assert lines[i] == later[i - 1];
          }
        }
      }
    }
  }

  /** The lines the loop body sees: those before the first one too long
      for the buffer. */
  function Readable(lines: seq<RawLine>): seq<RawLine>
  {
    if |lines| == 0 || |lines[0].chars| >= LineSize then []
    else [lines[0]] + Readable(lines[1..])
  }

  /** The readable lines are the lines up to the first long one. */
  lemma {:induction false} ReadableSpec(lines: seq<RawLine>)
    ensures Readable(lines) <= lines
    ensures forall i :: 0 <= i < |Readable(lines)| ==> |Readable(lines)[i].chars| < LineSize
    ensures |Readable(lines)| < |lines| ==> |lines[|Readable(lines)|].chars| >= LineSize
  {
    if |lines| > 0 && |lines[0].chars| < LineSize {
      ReadableSpec(lines[1..]);
      var r := Readable(lines[1..]);
      assert Readable(lines) == [lines[0]] + r;
      assert lines == [lines[0]] + lines[1..];
    }
  }

  /** The text a line puts in `iss`: `substr(0, gcount())` keeps the `'\0'`
      that `getline` stores in place of the newline. */
  function Buffer(line: RawLine): seq<char>
  {
    if line.newline then line.chars + ['\0'] else line.chars
  }

  /** White space in the C locale: the space and `'\t'` to `'\r'`;
      `'\0'` is not white space. */
  predicate IsSpace(c: char)
  {
    c == ' ' || '\t' <= c <= '\r'
  }

  /** The end of the white space starting at `i`. */
  function SkipSpace(s: seq<char>, i: nat): (r: nat)
    requires i <= |s|
    ensures i <= r <= |s|
    decreases |s| - i
  {
    if i == |s| || !IsSpace(s[i]) then i else SkipSpace(s, i + 1)
  }

  /** The end of the word starting at `i`. */
  function SkipWord(s: seq<char>, i: nat): (r: nat)
    requires i <= |s|
    ensures i <= r <= |s|
    ensures i < |s| && !IsSpace(s[i]) ==> r > i
    decreases |s| - i
  {
    if i == |s| || IsSpace(s[i]) then i else SkipWord(s, i + 1)
  }

  /** White space is skipped up to the text's end or the first other
      character. */
  lemma {:induction false} SkipSpaceSpec(s: seq<char>, i: nat)
    requires i <= |s|
    ensures forall k :: i <= k < SkipSpace(s, i) ==> IsSpace(s[k])
    ensures SkipSpace(s, i) < |s| ==> !IsSpace(s[SkipSpace(s, i)])
    decreases |s| - i
  {
    if i < |s| && IsSpace(s[i]) {
      SkipSpaceSpec(s, i + 1);
    }
  }

  /** A word runs up to the text's end or the first white space. */
  lemma {:induction false} SkipWordSpec(s: seq<char>, i: nat)
    requires i <= |s|
    ensures forall k :: i <= k < SkipWord(s, i) ==> !IsSpace(s[k])
    ensures SkipWord(s, i) < |s| ==> IsSpace(s[SkipWord(s, i)])
    decreases |s| - i
  {
    if i < |s| && !IsSpace(s[i]) {
      SkipWordSpec(s, i + 1);
    }
  }

  /** The words of a text, as repeated `>>` into a string reads them. */
  function Words(s: seq<char>): seq<seq<char>>
    decreases |s|
  {
    var p := SkipSpace(s, 0);
    if p == |s| then []
    else
      SkipSpaceSpec(s, 0);
      var e := SkipWord(s, p);
      [s[p..e]] + Words(s[e..])
  }

  /** A word: characters none of which is white space. */
  predicate IsWord(w: seq<char>)
  {
    |w| > 0 && forall k :: 0 <= k < |w| ==> !IsSpace(w[k])
  }

  /** A word starting on a non-space character is non-empty and holds no
      white space. */
  lemma WordAt(s: seq<char>, p: nat)
    requires p < |s| && !IsSpace(s[p])
    ensures p < SkipWord(s, p) <= |s| && IsWord(s[p..SkipWord(s, p)])
  {
    var e := SkipWord(s, p);
    SkipWordSpec(s, p);
    assert e == SkipWord(s, p + 1);
    var w := s[p..e];
    forall k | 0 <= k < |w| ensures !IsSpace(w[k]) {
      assert w[k] == s[p + k];
    }
  }

  /** The first word of a text that holds one is a word, and the rest
      are read after it. */
  lemma FirstWord(s: seq<char>)
    requires SkipSpace(s, 0) < |s|
    ensures var p := SkipSpace(s, 0); var e := SkipWord(s, p);
      p < e <= |s| && IsWord(s[p..e]) && Words(s) == [s[p..e]] + Words(s[e..])
  {
    var p := SkipSpace(s, 0);
    SkipSpaceSpec(s, 0);
    WordAt(s, p);
  }

  /** Every word read is a word. */
  lemma {:induction false} WordsSpec(s: seq<char>)
    ensures forall i :: 0 <= i < |Words(s)| ==> IsWord(Words(s)[i])
    decreases |s|
  {
    var p := SkipSpace(s, 0);
    if p < |s| {
      FirstWord(s);
      var e := SkipWord(s, p);
      WordsSpec(s[e..]);
      var r := Words(s);
      forall i | 0 <= i < |r| ensures IsWord(r[i]) {
        if i > 0 {
          assert r[i] == Words(s[e..])[i - 1];
        }
      }
    }
  }

  /** Whether white space follows the last word of a text. */
  predicate EndsInSpace(s: seq<char>)
  {
    |s| > 0 && IsSpace(s[|s| - 1])
  }

  /** What `iss` and `str` carry from one line to the next: the word last
      read and whether the stream is good. `iss.str(...)` leaves the state
      flags alone, so a stream gone bad stays bad, and `str` keeps its
      word, until a face line clears the stream. */
  datatype Stream = Stream(word: seq<char>, good: bool)

  const Fresh := Stream("", true)

  /** The words the loop body tests `str` against. */
  datatype Word = WordV | WordVt | WordVn | WordF | WordOther

  /** `str` compared with `"v"`, `"vt"`, `"vn"` and `"f"`, character by
      character. */
  function KeywordOf(w: seq<char>): Word
  {
    if |w| == 1 && w[0] == 'v' then WordV
    else if |w| == 2 && w[0] == 'v' && w[1] == 't' then WordVt
    else if |w| == 2 && w[0] == 'v' && w[1] == 'n' then WordVn
    else if |w| == 1 && w[0] == 'f' then WordF
    else WordOther
  }

  /** Each keyword is matched by its own word and no other. */
  lemma KeywordOfSpec(w: seq<char>)
    ensures KeywordOf(w) == WordV <==> w == "v"
    ensures KeywordOf(w) == WordVt <==> w == "vt"
    ensures KeywordOf(w) == WordVn <==> w == "vn"
    ensures KeywordOf(w) == WordF <==> w == "f"
  {
    if |w| == 1 {
      assert w == [w[0]];
    } else if |w| == 2 {
      assert w == [w[0], w[1]];
    }
  }

  predicate Keyword(w: seq<char>)
  {
    KeywordOf(w) != WordOther
  }

  /** `iss >> str` on the text of a line: the word the branches test, the
      text after it and whether the stream is still good. A stream that is
      not good, or holds nothing but white space, reads nothing and `str`
      keeps the old word; a word that runs to the end of the text leaves
      the stream at its end. */
  function ReadWord(st: Stream, text: seq<char>): (seq<char>, seq<char>, bool)
  {
    if !st.good then (st.word, [], false)
    else
      var p := SkipSpace(text, 0);
      if p == |text| then (st.word, [], false)
      else
        SkipSpaceSpec(text, 0);
        var e := SkipWord(text, p);
        (text[p..e], text[e..], e < |text|)
  }

  /** From a good stream, a text holding a word: the word read is the first
      run of characters other than white space, only white space comes
      before it, white space or the end of the text follows it, and the
      stream stays good exactly when something follows. */
  lemma ReadWordSpec(st: Stream, text: seq<char>)
    requires st.good && SkipSpace(text, 0) < |text|
    ensures var r := ReadWord(st, text);
      && text[SkipSpace(text, 0)..] == r.0 + r.1
      && (forall k :: 0 <= k < SkipSpace(text, 0) ==> IsSpace(text[k]))
      && |r.0| > 0 && (forall k :: 0 <= k < |r.0| ==> !IsSpace(r.0[k]))
      && (|r.1| == 0 || IsSpace(r.1[0]))
      && (r.2 <==> |r.1| > 0)
  {
    var p := SkipSpace(text, 0);
    SkipSpaceSpec(text, 0);
    var e := SkipWord(text, p);
    SkipWordSpec(text, p);
    var word := text[p..e];
    assert ReadWord(st, text) == (word, text[e..], e < |text|);
    assert forall k :: 0 <= k < |word| ==> word[k] == text[p + k];
    assert text[p..] == word + text[e..];
  }

  /** The branch the loop body takes on a line's text, and the stream after
      it. `numbers` says whether the floating-point reads of a `v`, `vt` or
      `vn` line leave the stream good; a face line ends with `iss.clear()`. */
  function Classify(st: Stream, text: seq<char>, numbers: bool): (Line, Stream)
  {
    var (word, rest, good) := ReadWord(st, text);
    match KeywordOf(word)
    case WordV => (Position, Stream(word, good && numbers))
    case WordVt => (TexCoord, Stream(word, good && numbers))
    case WordVn => (Normal, Stream(word, good && numbers))
    case WordF => (if good then Face(Words(rest), EndsInSpace(rest)) else Face([], false), Stream(word, true))
    case WordOther => (Other, Stream(word, good))
  }

  /** The branches the loop takes over `lines` from stream `st`, and the
      stream after them; `numbers` gives the outcome of the floating-point
      reads of a line from its text. */
  function Read(st: Stream, lines: seq<RawLine>, numbers: seq<char> -> bool): (r: (seq<Line>, Stream))
    ensures |r.0| == |lines|
  {
    if |lines| == 0 then ([], st)
    else
      var prev := Read(st, lines[..|lines| - 1], numbers);
      var text := Buffer(lines[|lines| - 1]);
      var next := Classify(prev.1, text, numbers(text));
      (prev.0 + [next.0], next.1)
  }

  /** `loadOBJ` on the lines of a file: the loop over the readable lines,
      from a fresh stream. */
  function LoadLines(lines: seq<RawLine>, numbers: seq<char> -> bool): Result<Loading, Error>
  {
    Run(Initial, Read(Fresh, Readable(lines), numbers).0)
  }

  /** `loadOBJ` on the text of a file. */
  function LoadFile(file: seq<char>, numbers: seq<char> -> bool): Result<Loading, Error>
  {
    LoadLines(Lines(file), numbers)
  }

  /** One more line: its branch is taken from the stream the lines before
      it left. */
  lemma ReadNext(lines: seq<RawLine>, i: nat, numbers: seq<char> -> bool)
    requires i < |lines|
    ensures var prev := Read(Fresh, lines[..i], numbers);
      var text := Buffer(lines[i]);
      var next := Classify(prev.1, text, numbers(text));
      Read(Fresh, lines[..i + 1], numbers) == (prev.0 + [next.0], next.1)
  {
    assert lines[..i + 1][..i] == lines[..i];
  }

  /** The branches taken over a prefix of the lines are a prefix of those
      taken over all of them. */
  lemma {:induction false} ReadPrefix(st: Stream, lines: seq<RawLine>, k: nat, numbers: seq<char> -> bool)
    requires k <= |lines|
    ensures Read(st, lines, numbers).0[..k] == Read(st, lines[..k], numbers).0
    decreases |lines|
  {
    if k < |lines| {
      var n := |lines| - 1;
      ReadPrefix(st, lines[..n], k, numbers);
      assert lines[..n][..k] == lines[..k];
      assert Read(st, lines, numbers).0[..k] == Read(st, lines[..n], numbers).0[..k];
    } else {
      assert lines[..k] == lines;
    }
  }

  /** A stream that is not good reads no word: the line takes the branch
      of the old word, which here names none. */
  lemma StuckStays(st: Stream, text: seq<char>, numbers: bool)
    requires !st.good && !Keyword(st.word)
    ensures Classify(st, text, numbers) == (Other, st)
  {
  }

  /** The last line after a stream gone bad on a word that names no branch. */
  lemma StuckNext(st: Stream, lines: seq<RawLine>, numbers: seq<char> -> bool)
    requires |lines| > 0
    requires var s := Read(st, lines[..|lines| - 1], numbers).1; !s.good && !Keyword(s.word)
    ensures var prev := Read(st, lines[..|lines| - 1], numbers);
      Read(st, lines, numbers) == (prev.0 + [Other], prev.1)
  {
    var prev := Read(st, lines[..|lines| - 1], numbers);
    var text := Buffer(lines[|lines| - 1]);
    StuckStays(prev.1, text, numbers(text));
  }

  /** A stream gone bad on a word that names no branch reads nothing more:
      every later line takes the `continue` branch and the stream stays as
      it is. */
  lemma {:induction false} StuckReadsNothing(st: Stream, lines: seq<RawLine>, k: nat, numbers: seq<char> -> bool)
    requires k <= |lines|
    requires !Read(st, lines[..k], numbers).1.good && !Keyword(Read(st, lines[..k], numbers).1.word)
    ensures Read(st, lines, numbers).1 == Read(st, lines[..k], numbers).1
    ensures forall i :: k <= i < |lines| ==> Read(st, lines, numbers).0[i] == Other
    decreases |lines|
  {
    if |lines| > k {
      var n := |lines| - 1;
      assert lines[..n][..k] == lines[..k];
      StuckReadsNothing(st, lines[..n], k, numbers);
      StuckNext(st, lines, numbers);
      var prev, all := Read(st, lines[..n], numbers).0, Read(st, lines, numbers).0;
      assert all == prev + [Other];
      forall i | k <= i < |lines| ensures all[i] == Other {
        if i < n { assert all[i] == prev[i]; }
      }
    } else {
      assert lines[..k] == lines;
    }
  }

  /** Lines that take the `continue` branch change nothing. */
  lemma {:induction false} OthersChangeNothing(l: Loading, a: seq<Line>, b: seq<Line>)
    requires |l.sub| == 4 && forall i :: 0 <= i < |b| ==> b[i] == Other
    ensures Run(l, a + b) == Run(l, a)
    decreases |b|
  {
    if |b| == 0 {
      assert a + b == a;
    } else {
      var n := |b| - 1;
      OthersChangeNothing(l, a, b[..n]);
      assert (a + b)[..|a + b| - 1] == a + b[..n];
      assert (a + b)[|a + b| - 1] == b[n];
    }
  }

  /** The readable lines of a run of short lines followed by more. */
  lemma {:induction false} ReadableAppend(a: seq<RawLine>, b: seq<RawLine>)
    requires forall i :: 0 <= i < |a| ==> |a[i].chars| < LineSize
    ensures Readable(a + b) == a + Readable(b)
    decreases |a|
  {
    if |a| == 0 {
      assert a + b == b;
    } else {
      ReadableAppend(a[1..], b);
      assert (a + b)[1..] == a[1..] + b;
    }
  }

  /** Every line of a run of short lines is readable. */
  lemma ReadableAll(lines: seq<RawLine>)
    requires forall i :: 0 <= i < |lines| ==> |lines[i].chars| < LineSize
    ensures Readable(lines) == lines
  {
    ReadableAppend(lines, []);
    assert lines + [] == lines;
  }

  /** Once a line leaves the stream bad on a word that names no branch, no
      later line changes the result. */
  lemma StuckEndsReading(before: seq<RawLine>, after: seq<RawLine>, numbers: seq<char> -> bool)
    requires forall i :: 0 <= i < |before| ==> |before[i].chars| < LineSize
    requires !Read(Fresh, before, numbers).1.good && !Keyword(Read(Fresh, before, numbers).1.word)
    ensures LoadLines(before + after, numbers) == LoadLines(before, numbers)
  {
    var k := |before|;
    var lines := Readable(before + after);
    ReadableAppend(before, after);
    ReadableAll(before);
    assert lines[..k] == before;
    var r := Read(Fresh, lines, numbers).0;
    StuckReadsNothing(Fresh, lines, k, numbers);
    ReadPrefix(Fresh, lines, k, numbers);
    assert r == r[..k] + r[k..];
    OthersChangeNothing(Initial, r[..k], r[k..]);
  }

  /** A blank line leaves a good stream bad on the word `"\0"`. */
  lemma BlankLineSticks(st: Stream, numbers: bool)
    requires st.good
    ensures Classify(st, Buffer(RawLine([], true)), numbers) == (Other, Stream(['\0'], false))
  {
    var text := Buffer(RawLine([], true));
    assert text == ['\0'];
    assert SkipWord(text, 1) == 1;
    assert text[0..1] == ['\0'];
  }

  /** So does a line holding one word and nothing else: the word read
      carries the `'\0'`, and a keyword never does. */
  lemma WordLineSticks(st: Stream, w: seq<char>, numbers: bool)
    requires st.good && |w| > 0 && forall k :: 0 <= k < |w| ==> !IsSpace(w[k])
    ensures Classify(st, Buffer(RawLine(w, true)), numbers) == (Other, Stream(w + ['\0'], false))
  {
    var text := Buffer(RawLine(w, true));
    assert forall k :: 0 <= k < |text| ==> !IsSpace(text[k]) by {
      forall k | 0 <= k < |text| ensures !IsSpace(text[k]) {
        if k < |w| { assert text[k] == w[k]; }
      }
    }
    var e := SkipWord(text, 0);
    SkipWordSpec(text, 0);
    assert e == |text|;
    assert text[0..e] == w + ['\0'];
    assert !Keyword(w + ['\0']) by {
      assert (w + ['\0'])[|w|] == '\0';
    }
  }

  /** A blank line read after a good stream. */
  lemma BlankLineRead(before: seq<RawLine>, numbers: seq<char> -> bool)
    requires Read(Fresh, before, numbers).1.good
    ensures var mid := Read(Fresh, before, numbers);
      Read(Fresh, before + [RawLine([], true)], numbers) == (mid.0 + [Other], Stream(['\0'], false))
  {
    var blank := RawLine([], true);
    var lines := before + [blank];
    assert lines[..|lines| - 1] == before;
    BlankLineSticks(Read(Fresh, before, numbers).1, numbers(Buffer(blank)));
  }

  /** As written, a blank line ends the reading of the file: after a good
      stream, a blank line and whatever follows give the result of the
      lines before it. */
  lemma BlankLineEndsReading(before: seq<RawLine>, after: seq<RawLine>, numbers: seq<char> -> bool)
    requires forall i :: 0 <= i < |before| ==> |before[i].chars| < LineSize
    requires Read(Fresh, before, numbers).1.good
    ensures LoadLines(before + [RawLine([], true)] + after, numbers) == LoadLines(before, numbers)
  {
    var lines := before + [RawLine([], true)];
    var mid := Read(Fresh, before, numbers);
    BlankLineRead(before, numbers);
    assert !Keyword(['\0']);
    StuckEndsReading(lines, after, numbers);
    ReadableAll(lines);
    ReadableAll(before);
    OthersChangeNothing(Initial, mid.0, [Other]);
  }

  /** The branches as evidently intended: every line read on its own, from
      a cleared stream, so that a line with no word in it is skipped. */
  function ReadCleared(lines: seq<RawLine>, numbers: seq<char> -> bool): (r: seq<Line>)
    ensures |r| == |lines|
  {
    if |lines| == 0 then []
    else
      var text := Buffer(lines[|lines| - 1]);
      ReadCleared(lines[..|lines| - 1], numbers) + [Classify(Fresh, text, numbers(text)).0]
  }

  function LoadLinesCleared(lines: seq<RawLine>, numbers: seq<char> -> bool): Result<Loading, Error>
  {
    Run(Initial, ReadCleared(Readable(lines), numbers))
  }

  /** Read from a cleared stream, each line takes its branch whatever came
      before it. */
  lemma {:induction false} ReadClearedAppend(a: seq<RawLine>, b: seq<RawLine>, numbers: seq<char> -> bool)
    ensures ReadCleared(a + b, numbers) == ReadCleared(a, numbers) + ReadCleared(b, numbers)
    decreases |b|
  {
    if |b| == 0 {
      assert a + b == a;
    } else {
      var n := |b| - 1;
      ReadClearedAppend(a, b[..n], numbers);
      assert (a + b)[..|a + b| - 1] == a + b[..n];
      assert (a + b)[|a + b| - 1] == b[n];
    }
  }

  /** Two runs that agree agree after one more line. */
  lemma RunSameLast(l: Loading, x: seq<Line>, y: seq<Line>, z: Line)
    requires |l.sub| == 4 && Run(l, x) == Run(l, y)
    ensures Run(l, x + [z]) == Run(l, y + [z])
  {
    assert (x + [z])[..|x|] == x;
    assert (y + [z])[..|y|] == y;
  }

  /** A line taking the `continue` branch changes nothing wherever it
      stands. */
  lemma {:induction false} OtherChangesNothing(l: Loading, a: seq<Line>, b: seq<Line>)
    requires |l.sub| == 4
    ensures Run(l, a + [Other] + b) == Run(l, a + b)
    decreases |b|
  {
    if |b| == 0 {
      assert a + [Other] + b == a + [Other];
      assert (a + [Other])[..|a|] == a;
      assert a + b == a;
    } else {
      var n := |b| - 1;
      OtherChangesNothing(l, a, b[..n]);
      RunSameLast(l, a + [Other] + b[..n], a + b[..n], b[n]);
      assert a + [Other] + b == (a + [Other] + b[..n]) + [b[n]];
      assert a + b == (a + b[..n]) + [b[n]];
    }
  }

  /** With the stream cleared before each line, a blank line anywhere
      changes nothing. */
  lemma BlankLineIgnored(before: seq<RawLine>, after: seq<RawLine>, numbers: seq<char> -> bool)
    requires forall i :: 0 <= i < |before| ==> |before[i].chars| < LineSize
    ensures LoadLinesCleared(before + [RawLine([], true)] + after, numbers) == LoadLinesCleared(before + after, numbers)
  {
    var blank := RawLine([], true);
    var lines := before + [blank];
    ReadableAppend(lines, after);
    ReadableAppend(before, after);
    var rest := Readable(after);
    ReadClearedAppend(lines, rest, numbers);
    ReadClearedAppend(before, rest, numbers);
    assert lines[..|lines| - 1] == before;
    BlankLineSticks(Fresh, numbers(Buffer(blank)));
    OtherChangesNothing(Initial, ReadCleared(before, numbers), ReadCleared(rest, numbers));
  }

  /** Every floating-point read succeeds. */
  function AllRead(text: seq<char>): bool
  {
    true
  }

  /** The line `v 1 2 3` from a fresh stream. */
  lemma ExamplePositionLine(st: Stream)
    requires st.good
    ensures Classify(st, Buffer(RawLine("v 1 2 3", true)), true) == (Position, Stream("v", true))
  {
    var tv := Buffer(RawLine("v 1 2 3", true));
    assert SkipSpace(tv, 0) == 0;
    assert SkipWord(tv, 1) == 1;
    assert SkipWord(tv, 0) == 1;
    assert tv[0..1] == "v";
    assert ReadWord(st, tv) == ("v", tv[1..], true);
  }

  /** The file `v 1 2 3`, a blank line, `f 1 1 1`: as written the face is
      not stored; only the position is counted. */
  lemma BlankLineEndsReadingAsWritten()
    ensures LoadLines([RawLine("v 1 2 3", true), RawLine("", true), RawLine("f 1 1 1", true)], AllRead)
      == Success(Initial.(positions := 1))
  {
    var v, f := RawLine("v 1 2 3", true), RawLine("f 1 1 1", true);
    ExamplePositionLine(Fresh);
    assert [v][..0] == [];
    assert Read(Fresh, [], AllRead) == ([], Fresh);
    assert Read(Fresh, [v], AllRead) == ([] + [Position], Stream("v", true));
    assert [] + [Position] == [Position];
    assert [v, RawLine("", true), f] == [v] + [RawLine([], true)] + [f];
    BlankLineEndsReading([v], [f], AllRead);
    assert Readable([v]) == [v] by {
      assert [v][1..] == [];
    }
    assert Run(Initial, [Position]) == Success(Initial.(positions := 1));
  }

  // ---------------------------------------------------------------------
  // Keys and the quad flag as written

  /** The key as written: the decimal numbers run together. */
  function KeyAsWritten(fields: seq<nat>): seq<char>
  {
    if |fields| == 0 then [] else Decimal(fields[0]) + KeyAsWritten(fields[1..])
  }

  /** `Corner` with the key as written. */
  function CornerAsWritten(s: Store, v: Vertex): (Store, nat)
  {
    var key := KeyAsWritten(Fields(v));
    if key in s.keys then (s, s.keys[key])
    else (Store(s.vertices + [v], s.indices, s.keys[key := |s.vertices|]), |s.vertices|)
  }

  /** With the keys as written, the tokens `1/23` and `12/3` share the key
      `123`: the second is given the index of the first, a different
      vertex. The separated key tells them apart. */
  lemma KeyCollisionAsWritten()
    ensures KeyAsWritten(Fields(Vertex(1, Some(23), None))) == KeyAsWritten(Fields(Vertex(12, Some(3), None)))
    ensures var (s1, _) := CornerAsWritten(EmptyStore, Vertex(1, Some(23), None));
            var (s2, k) := CornerAsWritten(s1, Vertex(12, Some(3), None));
            k == 0 && s2.vertices[k] == Vertex(1, Some(23), None)
    ensures var (s1, _) := Corner(EmptyStore, Vertex(1, Some(23), None));
            var (s2, k) := Corner(s1, Vertex(12, Some(3), None));
            k == 1 && s2.vertices[k] == Vertex(12, Some(3), None)
  {
    assert Decimal(23) == "23" && Decimal(12) == "12";
    assert Fields(Vertex(1, Some(23), None)) == [1, 23];
    assert Fields(Vertex(12, Some(3), None)) == [12, 3];
    assert KeyAsWritten([1, 23]) == "123" by {
      assert [1, 23][1..] == [23];
      assert KeyAsWritten([23]) == "23" + [] by { assert [23][1..] == []; }
    }
    assert KeyAsWritten([12, 3]) == "123" by {
      assert [12, 3][1..] == [3];
      assert KeyAsWritten([3]) == "3" + [] by { assert [3][1..] == []; }
    }
    assert Text(Vertex(1, Some(23), None)) == "1/23";
    assert Text(Vertex(12, Some(3), None)) == "12/3";
  }

  /** `FaceStep` with the quad flag as written: once set, it stays set. */
  function FaceStepAsWritten(l: Loading, toks: seq<seq<char>>, space: bool): Result<Loading, Error>
    requires |l.sub| == 4
  {
    var sub := ReadSub(l.sub, toks, space);
    var format :- FaceFormat(l.format, sub[0]);
    var quad :- QuadOf(toks, space);
    var f := format.(quad := format.quad || quad);
    var store :- AddFace(l.store, f, sub);
    Success(l.(format := f, sub := sub, store := store))
  }

  /** As written, a triangle after a quad is read as a quad, its fourth
      corner the previous face's last token: six indices instead of
      three. */
  lemma StickyQuadAsWritten(l: Loading, toks: seq<seq<char>>, space: bool)
    requires LoadingValid(l) && l.format.quad && ThreeAtEnd(toks, space)
    ensures FaceStepAsWritten(l, toks, space).Success? ==>
      |FaceStepAsWritten(l, toks, space).value.store.indices| == |l.store.indices| + 6
    ensures FaceStep(l, toks, space).Success? ==>
      |FaceStep(l, toks, space).value.store.indices| == |l.store.indices| + 3
  {
    var sub := ReadSub(l.sub, toks, space);
    var a := FaceStepAsWritten(l, toks, space);
    if a.Success? {
      AddFaceStores(l.store, l.format, sub, a.value.store);
    }
    if FaceStep(l, toks, space).Success? {
      FaceStepIndices(l, toks, space);
    }
  }
}
