/**
  The mutating parser of `pr-json`, proved to compute the functions of `JsonDom`: on success it hands
  back the node of the specification and stops where the specification stops, and on failure it reports
  the specified error.
 */
module JsonParser {
  import opened Prelude
  import opened Utf8
  import opened JsonStrings
  import opened JsonDom
  import opened JsonDocument
  import opened JsonPath
  import opened JsonTree

  class Parser {
    const b: Bytes
    const max: nat
    var i: nat
    var depth: nat

    constructor (b: Bytes, max: nat)
      ensures this.b == b && this.max == max && i == 0 && depth == 0
    {
      this.b := b;
      this.max := max;
      i := 0;
      depth := 0;
    }

    predicate Valid()
      reads this
    {
      i <= |b|
    }

    method SkipWs()
      requires Valid()
      modifies this`i
      ensures i == Ws(b, old(i))
    {
      while i < |b| && IsWs(b[i])
        invariant i <= |b| && Ws(b, i) == Ws(b, old(i))
      {
        i := i + 1;
      }
    }

    method Peek() returns (r: Result<Byte, JsonError>)
      requires Valid()
      ensures r == if i < |b| then Ok(b[i]) else Err(Eof)
    {
      if i < |b| {
        r := Ok(b[i]);
      } else {
        r := Err(Eof);
      }
    }

    method Eat(c: Byte, fault: Fault) returns (r: Result<(), JsonError>)
      requires Valid()
      modifies this`i
      ensures if old(i) == |b| then r == Err(Eof) && i == old(i)
              else if b[old(i)] == c then r.Ok? && i == old(i) + 1
              else r == Err(Syntax(old(i), fault)) && i == old(i)
    {
      var p := Peek();
      match p
      case Err(e) => r := Err(e);
      case Ok(x) =>
        if x == c {
          i := i + 1;
          r := Ok(());
        } else {
          r := Err(Syntax(i, fault));
        }
    }

    method Lit(word: Bytes, kind: Kind, fault: Fault) returns (r: Result<Node, JsonError>)
      requires Valid() && word != []
      modifies this`i
      ensures Valid() && Reports(r, Literal(b, old(i), word, kind, fault))
    {
      var start := i;
      if |b| >= i + |word| && b[i..i + |word|] == word {
        i := i + |word|;
        r := Ok(Node(start, i, kind));
      } else {
        r := Err(Syntax(i, fault));
      }
    }

    /** What a parsing method owes its specification. */
    ghost predicate Reports<T>(r: Result<T, JsonError>, spec: Parsed<T>)
      reads this
    {
      match spec
      case Got(v, next) => r == Ok(v) && i == next
      case Fail(e) => r == Err(e)
    }

    /** The loop over four hexadecimal digits. */
    method HexDigits() returns (r: Result<(), JsonError>)
      requires Valid()
      modifies this`i
      ensures Valid() && Reports(r, HexRun(b, old(i), 4))
    {
      var n := 0;
      while n < 4
        invariant 0 <= n <= 4 && Valid() && HexRun(b, old(i), 4) == HexRun(b, i, 4 - n)
      {
        var h := Peek();
        if h.Err? {
          return Err(h.error);
        }
        if !IsHexDigit(h.value) {
          return Err(Syntax(i, BadUnicodeEscape));
        }
        i := i + 1;
        n := n + 1;
      }
      r := Ok(());
    }

    method ScanString() returns (r: Result<(), JsonError>)
      requires Valid()
      modifies this`i
      ensures Valid() && Reports(r, StringSpan(b, old(i)))
    {
      r := Eat(QUOTE, ExpectedString);
      if r.Err? {
        return;
      }
      while true
        invariant Valid() && StringSpan(b, old(i)) == StringTail(b, i)
        decreases |b| - i
      {
        var c := Peek();
        if c.Err? {
          return Err(c.error);
        }
        i := i + 1;
        if c.value == QUOTE {
          return Ok(());
        } else if c.value == BACKSLASH {
          var e := Peek();
          if e.Err? {
            return Err(e.error);
          }
          i := i + 1;
          if e.value == LOWER_U {
            var h := HexDigits();
            if h.Err? {
              return Err(h.error);
            }
          } else if !IsShortEscape(e.value) {
            return Err(Syntax(i - 1, BadEscape));
          }
        } else if c.value < 0x20 {
          return Err(Syntax(i - 1, ControlChar));
        }
      }
    }

    method ScanDigits()
      requires Valid()
      modifies this`i
      ensures i == Digits(b, old(i))
    {
      while i < |b| && IsDigit(b[i])
        invariant i <= |b| && Digits(b, i) == Digits(b, old(i))
      {
        i := i + 1;
      }
    }

    method ScanNumber() returns (r: Result<(), JsonError>)
      requires Valid()
      modifies this`i
      ensures Valid() && Reports(r, NumberSpan(b, old(i)))
    {
      var p := Peek();
      if p.Err? {
        return Err(p.error);
      }
      if p.value == MINUS {
        i := i + 1;
      }
      p := Peek();
      if p.Err? {
        return Err(p.error);
      }
      if p.value == 0x30 {
        i := i + 1;
      } else if IsDigit(p.value) {
        ScanDigits();
      } else {
        return Err(Syntax(i, ExpectedDigit));
      }
      assert Digits(b, i) >= i;
      ghost var afterInt := i;
      assert IntPart(b, AfterMinus(b, old(i))) == Got((), afterInt);
      r := ScanFraction();
      if r.Err? {
        return;
      }
      r := ScanExponent();
    }

    method ScanFraction() returns (r: Result<(), JsonError>)
      requires Valid()
      modifies this`i
      ensures Valid() && Reports(r, Fraction(b, old(i)))
    {
      if i < |b| && b[i] == DOT {
        i := i + 1;
        var d0 := i;
        ScanDigits();
        if i == d0 {
          return Err(Syntax(i, ExpectedFractionDigit));
        }
      }
      r := Ok(());
    }

    method ScanExponent() returns (r: Result<(), JsonError>)
      requires Valid()
      modifies this`i
      ensures Valid() && Reports(r, Exponent(b, old(i)))
    {
      if i < |b| && (b[i] == 0x65 || b[i] == 0x45) {
        i := i + 1;
        if i < |b| && (b[i] == 0x2B || b[i] == MINUS) {
          i := i + 1;
        }
        var d0 := i;
        ScanDigits();
        if i == d0 {
          return Err(Syntax(i, ExpectedExponentDigit));
        }
      }
      r := Ok(());
    }

    /** A literal, string or number at the current position. */
    method ScanToken() returns (r: Result<Node, JsonError>)
      requires i < |b|
      modifies this`i
      ensures Valid() && Reports(r, Token(b, old(i)))
    {
      var start, c := i, b[i];
      if c == 0x6E {
        r := Lit(NULL, Null, ExpectedNull);
      } else if c == 0x74 {
        r := Lit(TRUE, Bool(true), ExpectedTrue);
      } else if c == 0x66 {
        r := Lit(FALSE, Bool(false), ExpectedFalse);
      } else if c == QUOTE {
        var s := ScanString();
        r := match s case Err(e) => Err(e) case Ok(_) => Ok(Node(start, i, String));
      } else if c == MINUS || IsDigit(c) {
        var s := ScanNumber();
        r := match s case Err(e) => Err(e) case Ok(_) => Ok(Node(start, i, Number));
      } else {
        r := Err(Syntax(i, UnexpectedToken));
      }
    }

    /** `Parser::value`. On success every level it opened is closed again. */
    method ParseValue() returns (r: Result<Node, JsonError>)
      requires Valid()
      modifies this
      ensures Valid() && Reports(r, Value(b, max, old(depth), old(i)))
      ensures r.Ok? ==> depth == old(depth)
      decreases |b| - i, 1
    {
      depth := depth + 1;
      if depth > max {
        return Err(DepthExceeded(max));
      }
      SkipWs();
      var p := Peek();
      if p.Err? {
        return Err(p.error);
      }
      if p.value == OPEN_BRACKET {
        r := ParseArray();
      } else if p.value == OPEN_BRACE {
        r := ParseObject();
      } else {
        r := ScanToken();
      }
      if r.Ok? {
        depth := depth - 1;
      }
    }

    method ParseArray() returns (r: Result<Node, JsonError>)
      requires i < |b| && depth > 0
      modifies this
      ensures Valid() && Reports(r, ArrayAt(b, max, old(depth), old(i)))
      ensures r.Ok? ==> depth == old(depth)
      decreases |b| - i, 0
    {
      hide Ws, Value;
      var start := i;
      i := i + 1;
      SkipWs();
      var p := Peek();
      if p.Err? {
        return Err(p.error);
      }
      if p.value == CLOSE_BRACKET {
        i := i + 1;
        return Ok(Node(start, i, Array([])));
      }
      var items: seq<Node> := [];
      ghost var k := i;
      PrependNone(Items(b, max, depth, i));
      while true
        invariant start < k <= i <= |b| && depth == old(depth)
        invariant Items(b, max, depth, k) == Prepend(items, Items(b, max, depth, i))
        decreases |b| - i
      {
        ghost var sofar := items;
        var v := ParseValue();
        if v.Err? {
          return Err(v.error);
        }
        items := items + [v.value];
        SkipWs();
        p := Peek();
        if p.Err? {
          return Err(p.error);
        }
        if p.value == COMMA {
          i := i + 1;
          PrependOne(sofar, v.value, Items(b, max, depth, i));
        } else if p.value == CLOSE_BRACKET {
          i := i + 1;
          return Ok(Node(start, i, Array(items)));
        } else {
          return Err(Syntax(i, ExpectedCommaOrBracket));
        }
      }
    }

    method ParseObject() returns (r: Result<Node, JsonError>)
      requires i < |b| && depth > 0
      modifies this
      ensures Valid() && Reports(r, ObjectAt(b, max, old(depth), old(i)))
      ensures r.Ok? ==> depth == old(depth)
      decreases |b| - i, 0
    {
      hide Ws, Value, Pair, Numbered;
      var start := i;
      i := i + 1;
      SkipWs();
      var p := Peek();
      if p.Err? {
        return Err(p.error);
      }
      var raw: seq<RawMember> := [];
      if p.value == CLOSE_BRACE {
        i := i + 1;
      } else {
        ghost var k := i;
        PrependNone(Members(b, max, depth, i));
        while true
          invariant start < k <= i <= |b| && depth == old(depth)
          invariant Members(b, max, depth, k) == Prepend(raw, Members(b, max, depth, i))
          decreases |b| - i
        {
          ghost var sofar := raw;
          var m := ParsePair();
          if m.Err? {
            return Err(m.error);
          }
          raw := raw + [m.value];
          SkipWs();
          p := Peek();
          if p.Err? {
            return Err(p.error);
          }
          if p.value == COMMA {
            i := i + 1;
            PrependOne(sofar, m.value, Members(b, max, depth, i));
          } else if p.value == CLOSE_BRACE {
            i := i + 1;
            break;
          } else {
            return Err(Syntax(i, ExpectedCommaOrBrace));
          }
        }
      }
      var members := AssignOccurrences(raw);
      r := Ok(Node(start, i, Object(members)));
    }

    /** The key, the colon and the value of one member. */
    method ParsePair() returns (r: Result<RawMember, JsonError>)
      requires Valid() && depth > 0
      modifies this
      ensures Valid() && Reports(r, Pair(b, max, old(depth), old(i)))
      ensures r.Ok? ==> depth == old(depth)
      decreases |b| - i, 2
    {
      hide Ws, Value, StringSpan, DecodeString;
      SkipWs();
      var k := i;
      var s := ScanString();
      if s.Err? {
        return Err(s.error);
      }
      var j := i;
      var key := DecodeString(b[k..j]);
      if key.None? {
        return Err(Syntax(k, BadKeyEscape));
      }
      SkipWs();
      var c := Eat(COLON, ExpectedColon);
      if c.Err? {
        return Err(c.error);
      }
      var v := ParseValue();
      if v.Err? {
        return Err(v.error);
      }
      r := Ok(RawMember(k, j, key.value, v.value));
    }
  }

  /** The result of a loop that has already collected `front`. */
  ghost function Prepend<T>(front: seq<T>, rest: Parsed<seq<T>>): Parsed<seq<T>> {
    match rest
    case Got(v, next) => Got(front + v, next)
    case Fail(e) => Fail(e)
  }

  lemma {:induction false} PrependNone<T>(rest: Parsed<seq<T>>)
    ensures Prepend([], rest) == rest
  {
    if rest.Got? {
      assert [] + rest.value == rest.value;
    }
  }

  lemma {:induction false} PrependOne<T>(front: seq<T>, x: T, rest: Parsed<seq<T>>)
    ensures Prepend(front, Prepend([x], rest)) == Prepend(front + [x], rest)
  {
    if rest.Got? {
      assert front + ([x] + rest.value) == (front + [x]) + rest.value;
    }
  }

  /** The two counting passes over the collected members, with their tables. */
  method AssignOccurrences(raw: seq<RawMember>) returns (members: seq<Member>)
    ensures members == Numbered(raw)
  {
    var totals: map<Text, nat> := map[];
    for k := 0 to |raw|
      invariant forall key :: (if key in totals then totals[key] else 0) == Count(raw[..k], key)
    {
      CountNext(raw, k);
      var n := if raw[k].key in totals then totals[raw[k].key] else 0;
      totals := totals[raw[k].key := n + 1];
    }
    assert raw[..|raw|] == raw;
    var seen: map<Text, nat> := map[];
    members := [];
    for k := 0 to |raw|
      invariant forall key :: (if key in seen then seen[key] else 0) == Count(raw[..k], key)
      invariant |members| == k && forall j :: 0 <= j < k ==> members[j] == NumberOne(raw, j)
    {
      CountNext(raw, k);
      var key := raw[k].key;
      var n := if key in seen then seen[key] else 0;
      seen := seen[key := n + 1];
      CountAtMostTotal(raw, k);
      var total := if key in totals then totals[key] else 1;
      members := members + [Member(raw[k].keyStart, raw[k].keyEnd, key, n + 1, total, raw[k].value)];
    }
  }

  lemma {:induction false} CountAtMostTotal(raw: seq<RawMember>, k: nat)
    requires k < |raw|
    ensures 1 <= Count(raw[..k + 1], raw[k].key) <= Count(raw, raw[k].key)
  {
    CountPrefix(raw, k, k + 1, raw[k].key);
    assert raw[..|raw|] == raw;
    if k + 1 < |raw| {
      CountPrefix(raw, k + 1, |raw|, raw[k].key);
    }
  }

  lemma {:induction false} CountNext(raw: seq<RawMember>, k: nat)
    requires k < |raw|
    ensures forall key :: Count(raw[..k + 1], key) == Count(raw[..k], key) + (if raw[k].key == key then 1 else 0)
  {
    forall key ensures Count(raw[..k + 1], key) == Count(raw[..k], key) + (if raw[k].key == key then 1 else 0) {
      CountAppend(raw[..k], [raw[k]], key);
      assert raw[..k + 1] == raw[..k] + [raw[k]];
      assert [raw[k]][1..] == [];
    }
  }

  /** `Document::parse`. */
  method ParseText(source: Bytes, max: nat) returns (r: Result<Document, JsonError>)
    ensures r == ParseDocument(source, max)
  {
    hide Ws, Value;
    var p := new Parser(source, max);
    var root := p.ParseValue();
    if root.Err? {
      return Err(root.error);
    }
    p.SkipWs();
    if p.i != |source| {
      return Err(Trailing(p.i));
    }
    r := Ok(Document(source, root.value));
  }

  /** `decode_string`: the loop that builds the text character by character. */
  method DecodeToken(tok: Bytes) returns (r: Option<Text>)
    ensures r == DecodeString(tok)
  {
    hide DecodeOne;
    if |tok| < 2 {
      return None;
    }
    var inner := tok[1..|tok| - 1];
    var out: Text := [];
    var i := 0;
    assert inner[0..] == inner && (DecodeInner(inner).Some? ==> [] + DecodeInner(inner).value == DecodeInner(inner).value);
    while i < |inner|
      invariant 0 <= i <= |inner|
      invariant DecodeInner(inner) == Push(out, DecodeInner(inner[i..]))
    {
      var d := DecodeOne(inner[i..]);
      if d.None? {
        return None;
      }
      PushOne(out, d.value.scalar, DecodeInner(inner[i..][d.value.length..]));
      assert inner[i..][d.value.length..] == inner[i + d.value.length..];
      out := out + [d.value.scalar];
      i := i + d.value.length;
    }
    assert inner[i..] == [] && out + [] == out;
    r := Some(out);
  }

  ghost function Push(front: Text, rest: Option<Text>): Option<Text> {
    match rest
    case None => None
    case Some(t) => Some(front + t)
  }

  lemma {:induction false} PushOne(front: Text, c: Scalar, rest: Option<Text>)
    ensures Push(front, Push([c], rest)) == Push(front + [c], rest)
  {
    if rest.Some? {
      assert front + ([c] + rest.value) == (front + [c]) + rest.value;
    }
  }

  /** `Document::get`: one step at a time from the root. */
  method Lookup(doc: Document, steps: seq<Step>) returns (r: Result<Node, JsonError>)
    ensures r == Get(doc, steps)
  {
    hide Choose;
    var cur := doc.root;
    ghost var route: seq<nat> := [];
    assert steps[0..] == steps;
    ExtendNone(Locate(cur, steps));
    for k := 0 to |steps|
      invariant |route| == k && Descend(doc.root, route) == Some(cur)
      invariant Locate(doc.root, steps) == Extend(route, Locate(cur, steps[k..]))
    {
      var c := Choose(cur, steps[k]);
      if c.Err? {
        return Err(c.error);
      }
      ExtendOne(route, c.value, Locate(Children(cur)[c.value], steps[k + 1..]));
      assert steps[k..][1..] == steps[k + 1..];
      DescendFurther(doc.root, route, c.value);
      route := route + [c.value];
      cur := Children(cur)[c.value];
    }
    assert route + [] == route;
    r := Ok(cur);
  }

  ghost function Extend(front: seq<nat>, rest: Result<seq<nat>, JsonError>): Result<seq<nat>, JsonError> {
    match rest
    case Err(e) => Err(e)
    case Ok(t) => Ok(front + t)
  }

  lemma {:induction false} ExtendNone(rest: Result<seq<nat>, JsonError>)
    ensures Extend([], rest) == rest
  {
    if rest.Ok? {
      assert [] + rest.value == rest.value;
    }
  }

  lemma {:induction false} ExtendOne(front: seq<nat>, k: nat, rest: Result<seq<nat>, JsonError>)
    ensures Extend(front, Extend([k], rest)) == Extend(front + [k], rest)
  {
    if rest.Ok? {
      assert front + ([k] + rest.value) == (front + [k]) + rest.value;
    }
  }

  lemma {:induction false} DescendFurther(n: Node, route: seq<nat>, k: nat)
    requires Descend(n, route).Some? && k < |Children(Descend(n, route).value)|
    ensures Descend(n, route + [k]) == Some(Children(Descend(n, route).value)[k])
    decreases |route|
  {
    if route != [] {
      DescendFurther(Children(n)[route[0]], route[1..], k);
      assert (route + [k])[1..] == route[1..] + [k];
    }
  }

  /** `Document::replace`: the three pieces appended to one buffer. */
  method ReplaceNode(doc: Document, steps: seq<Step>, insert: Bytes) returns (r: Result<Bytes, JsonError>)
    requires Sound(doc)
    ensures r == Replace(doc, steps, insert)
  {
    hide Nested;
    var node := Lookup(doc, steps);
    if node.Err? {
      return Err(node.error);
    }
    DescendantInside(doc.root, 0, |doc.source|, Locate(doc.root, steps).value);
    var out: Bytes := [];
    out := out + doc.source[..node.value.start];
    out := out + insert;
    out := out + doc.source[node.value.end..];
    assert out == doc.source[..node.value.start] + insert + doc.source[node.value.end..];
    r := Ok(out);
  }
}
