/** JSON values, the text the writer gives them, and an independent reader for
    that text: sections 2 to 7 of RFC 8259, numbers limited to integers. */
module JsonText {

  type Int64 = x: int | -0x8000_0000_0000_0000 <= x < 0x8000_0000_0000_0000

  datatype Json =
    | Null
    | Bool(b: bool)
    | Int(n: Int64)
    | Str(s: string)
    | Arr(elems: seq<Json>)
    | Obj(members: seq<Member>)

  datatype Member = Member(name: string, value: Json)

  // ---- The written text ----

  const NUL := '\0'

  function HexDigit(d: int): (c: char)
    requires 0 <= d < 16
  {
    if d < 10 then '0' + d as char else 'a' + (d - 10) as char
  }

  function EscapeChar(c: char): string {
    if c == '"' then "\\\""
    else if c == '\\' then "\\\\"
    else if c == 8 as char then "\\b"
    else if c == 12 as char then "\\f"
    else if c == '\n' then "\\n"
    else if c == '\r' then "\\r"
    else if c == '\t' then "\\t"
    else if c < ' ' then ['\\', 'u', '0', '0', HexDigit(c as int / 16), HexDigit(c as int % 16)]
    else [c]
  }

  /** The escapes used: the short ones where section 7 of RFC 8259 has them and
      the slash needs none, lower-case hexadecimal for the other controls, and
      nothing else is escaped. */
  lemma EscapesUsed(c: char)
    ensures EscapeChar('"') == ['\\', '"'] && EscapeChar('\\') == ['\\', '\\']
    ensures EscapeChar(8 as char) == "\\b" && EscapeChar(12 as char) == "\\f"
    ensures EscapeChar('\n') == "\\n" && EscapeChar('\r') == "\\r" && EscapeChar('\t') == "\\t"
    ensures c as int < 32 && c as int !in {8, 9, 10, 12, 13} ==>
      EscapeChar(c) == "\\u00" + (if c as int < 16 then "0" else "1") + ["0123456789abcdef"[c as int % 16]]
    ensures c as int >= 32 && c != '"' && c != '\\' ==> EscapeChar(c) == [c]
  {
  }

  /** A C string ends at its first NUL. */
  function CString(s: string): string {
    if s == "" || s[0] == NUL then "" else [s[0]] + CString(s[1..])
  }

  function Escape(s: string): string {
    if s == "" || s[0] == NUL then "" else EscapeChar(s[0]) + Escape(s[1..])
  }

  function Quote(s: string): string { ['"'] + Escape(s) + ['"'] }

  function Digits(n: nat): (r: string)
    ensures |r| > 0
  {
    if n < 10 then ['0' + n as char] else Digits(n / 10) + ['0' + (n % 10) as char]
  }

  function Decimal(n: int): string {
    if n < 0 then ['-'] + Digits(-n) else Digits(n)
  }

  function Comma(need: bool): string { if need then "," else "" }

  function Text(t: Json): string
    decreases t
  {
    match t
    case Null => "null"
    case Bool(b) => if b then "true" else "false"
    case Int(n) => Decimal(n)
    case Str(s) => Quote(s)
    case Arr(es) => ['['] + Elems(false, es) + [']']
    case Obj(ms) => ['{'] + Members(false, ms) + ['}']
  }

  function Elems(need: bool, es: seq<Json>): string
    decreases es
  {
    if es == [] then "" else Comma(need) + Text(es[0]) + Elems(true, es[1..])
  }

  function Members(need: bool, ms: seq<Member>): string
    decreases ms
  {
    if ms == [] then ""
    else Comma(need) + Quote(ms[0].name) + [':'] + Text(ms[0].value) + Members(true, ms[1..])
  }

  // ---- The reader ----

  datatype Parsed<T> = Fail | Ok(value: T, rest: string)

  predicate Space(c: char) { c == ' ' || c == '\t' || c == '\n' || c == '\r' }

  function SkipSpace(s: string): (r: string)
    ensures |r| <= |s|
  {
    if s != "" && Space(s[0]) then SkipSpace(s[1..]) else s
  }

  predicate IsDigit(c: char) { '0' <= c <= '9' }

  function HexValue(c: char): int {
    if '0' <= c <= '9' then c as int - '0' as int
    else if 'a' <= c <= 'f' then c as int - 'a' as int + 10
    else if 'A' <= c <= 'F' then c as int - 'A' as int + 10
    else -1
  }

  /** One character of a string body, escapes undone; escaped surrogates are refused. */
  function ReadChar(s: string): (p: Parsed<char>)
    ensures p.Ok? ==> |p.rest| < |s|
  {
    if s == "" || s[0] == '"' || s[0] < ' ' then Fail
    else if s[0] != '\\' then Ok(s[0], s[1..])
    else if |s| < 2 then Fail
    else if s[1] == 'u' then
      if |s| < 6 then Fail
      else
        var a, b, c, d := HexValue(s[2]), HexValue(s[3]), HexValue(s[4]), HexValue(s[5]);
        var code := ((a * 16 + b) * 16 + c) * 16 + d;
        if a < 0 || b < 0 || c < 0 || d < 0 || 0xD800 <= code < 0xE000 then Fail
        else Ok(code as char, s[6..])
    else if s[1] == '"' || s[1] == '\\' || s[1] == '/' then Ok(s[1], s[2..])
    else if s[1] == 'b' then Ok(8 as char, s[2..])
    else if s[1] == 'f' then Ok(12 as char, s[2..])
    else if s[1] == 'n' then Ok('\n', s[2..])
    else if s[1] == 'r' then Ok('\r', s[2..])
    else if s[1] == 't' then Ok('\t', s[2..])
    else Fail
  }

  /** The rest of a string, its opening quote already read. */
  function ReadString(s: string): (p: Parsed<string>)
    ensures p.Ok? ==> |p.rest| < |s|
    decreases |s|
  {
    if s == "" then Fail
    else if s[0] == '"' then Ok("", s[1..])
    else
      var c := ReadChar(s);
      if c.Fail? then Fail
      else
        var more := ReadString(c.rest);
        if more.Fail? then Fail else Ok([c.value] + more.value, more.rest)
  }

  function ReadDigits(s: string, acc: nat): (p: Parsed<nat>)
    ensures p.Ok? && |p.rest| <= |s|
    decreases |s|
  {
    if s == "" || !IsDigit(s[0]) then Ok(acc, s)
    else ReadDigits(s[1..], acc * 10 + (s[0] as int - '0' as int))
  }

  /** No superfluous leading zero. */
  function ReadNatural(s: string): (p: Parsed<nat>)
    ensures p.Ok? ==> |p.rest| < |s|
  {
    if s == "" || !IsDigit(s[0]) then Fail
    else if s[0] == '0' then Ok(0, s[1..])
    else ReadDigits(s[1..], s[0] as int - '0' as int)
  }

  function ReadInteger(s: string): (p: Parsed<Json>)
    ensures p.Ok? ==> |p.rest| < |s|
  {
    var negative := s != "" && s[0] == '-';
    var p := ReadNatural(if negative then s[1..] else s);
    if p.Fail? then Fail
    else
      var v: int := p.value;
      var n := if negative then -v else v;
      if -0x8000_0000_0000_0000 <= n < 0x8000_0000_0000_0000 then Ok(Int(n), p.rest) else Fail
  }

  function ReadWord(s: string, word: string, t: Json): (p: Parsed<Json>)
    requires word != ""
    ensures p.Ok? ==> |p.rest| < |s|
  {
    if |s| >= |word| && s[..|word|] == word then Ok(t, s[|word|..]) else Fail
  }

  function ReadValue(text: string): (p: Parsed<Json>)
    ensures p.Ok? ==> |p.rest| < |text|
    decreases |text|, 0
  {
    var s := SkipSpace(text);
    if s == "" then Fail
    else if s[0] == 'n' then ReadWord(s, "null", Null)
    else if s[0] == 't' then ReadWord(s, "true", Bool(true))
    else if s[0] == 'f' then ReadWord(s, "false", Bool(false))
    else if s[0] == '"' then
      var p := ReadString(s[1..]);
      if p.Fail? then Fail else Ok(Str(p.value), p.rest)
    else if s[0] == '[' then
      var inside := SkipSpace(s[1..]);
      if inside != "" && inside[0] == ']' then Ok(Arr([]), inside[1..])
      else
        var p := ReadElems(inside);
        if p.Fail? then Fail else Ok(Arr(p.value), p.rest)
    else if s[0] == '{' then
      var inside := SkipSpace(s[1..]);
      if inside != "" && inside[0] == '}' then Ok(Obj([]), inside[1..])
      else
        var p := ReadMembers(inside);
        if p.Fail? then Fail else Ok(Obj(p.value), p.rest)
    else ReadInteger(s)
  }

  /** At least one element, up to and including the closing bracket. */
  function ReadElems(s: string): (p: Parsed<seq<Json>>)
    ensures p.Ok? ==> |p.rest| < |s|
    decreases |s|, 1
  {
    var v := ReadValue(s);
    if v.Fail? then Fail
    else
      var next := SkipSpace(v.rest);
      if next == "" then Fail
      else if next[0] == ']' then Ok([v.value], next[1..])
      else if next[0] != ',' then Fail
      else
        var more := ReadElems(next[1..]);
        if more.Fail? then Fail else Ok([v.value] + more.value, more.rest)
  }

  /** At least one member, up to and including the closing brace. */
  function ReadMembers(text: string): (p: Parsed<seq<Member>>)
    ensures p.Ok? ==> |p.rest| < |text|
    decreases |text|, 1
  {
    var s := SkipSpace(text);
    if s == "" || s[0] != '"' then Fail
    else
      var name := ReadString(s[1..]);
      if name.Fail? then Fail
      else
        var colon := SkipSpace(name.rest);
        if colon == "" || colon[0] != ':' then Fail
        else
          var v := ReadValue(colon[1..]);
          if v.Fail? then Fail
          else
            var next := SkipSpace(v.rest);
            if next == "" then Fail
            else if next[0] == '}' then Ok([Member(name.value, v.value)], next[1..])
            else if next[0] != ',' then Fail
            else
              var more := ReadMembers(next[1..]);
              if more.Fail? then Fail else Ok([Member(name.value, v.value)] + more.value, more.rest)
  }

  /** A whole document: one value and nothing but white space after it. */
  function Read(text: string): (p: Parsed<Json>) {
    var v := ReadValue(text);
    if v.Ok? && SkipSpace(v.rest) == "" then Ok(v.value, "") else Fail
  }

  // ---- The reader undoes the writer ----

  /** What a tree says once its strings pass as C strings. */
  function AsC(t: Json): Json
    decreases t
  {
    match t
    case Null => Null
    case Bool(b) => Bool(b)
    case Int(n) => Int(n)
    case Str(s) => Str(CString(s))
    case Arr(es) => Arr(AsCElems(es))
    case Obj(ms) => Obj(AsCMembers(ms))
  }

  function AsCElems(es: seq<Json>): (r: seq<Json>)
    decreases es
  {
    if es == [] then [] else [AsC(es[0])] + AsCElems(es[1..])
  }

  function AsCMembers(ms: seq<Member>): (r: seq<Member>)
    decreases ms
  {
    if ms == [] then [] else [Member(CString(ms[0].name), AsC(ms[0].value))] + AsCMembers(ms[1..])
  }

  /** A number ends where no further digit follows. */
  predicate Ends(rest: string) { rest == "" || !IsDigit(rest[0]) }

  lemma {:induction false} DigitsThen(n: nat, tail: string)
    ensures ReadDigits(Digits(n) + tail, 0) == ReadDigits(tail, n)
  {
    var d := ['0' + (n % 10) as char];
    assert (d + tail)[1..] == tail;
    if n >= 10 {
      assert Digits(n) + tail == Digits(n / 10) + (d + tail);
      DigitsThen(n / 10, d + tail);
    }
  }

  lemma {:induction false} FirstDigit(n: nat)
    ensures IsDigit(Digits(n)[0]) && (Digits(n)[0] == '0' <==> n == 0)
  {
    if n >= 10 {
      FirstDigit(n / 10);
    }
  }

  lemma NaturalRead(n: nat, rest: string)
    requires Ends(rest)
    ensures ReadNatural(Digits(n) + rest) == Ok(n, rest)
  {
    var s := Digits(n) + rest;
    FirstDigit(n);
    DigitsThen(n, rest);
    assert s[0] == Digits(n)[0];
    if n == 0 {
      assert s[1..] == rest;
    }
  }

  lemma IntegerRead(n: Int64, rest: string)
    requires Ends(rest)
    ensures ReadInteger(Decimal(n) + rest) == Ok(Int(n), rest)
  {
    var s := Decimal(n) + rest;
    if n < 0 {
      var m: int := n;
      assert s[1..] == Digits(-m) + rest;
      NaturalRead(-m, rest);
    } else {
      FirstDigit(n);
      assert s[0] == Digits(n)[0];
      NaturalRead(n, rest);
    }
  }

  lemma CharRead(c: char, tail: string)
    requires c != NUL
    ensures ReadChar(EscapeChar(c) + tail) == Ok(c, tail)
    ensures (EscapeChar(c) + tail)[0] != '"'
  {
    var e := EscapeChar(c);
    var s := e + tail;
    assert s[|e|..] == tail;
  }

  lemma StringStep(c: char, tail: string, v: string, rest: string)
    requires c != NUL && ReadString(tail) == Ok(v, rest)
    ensures ReadString(EscapeChar(c) + tail) == Ok([c] + v, rest)
  {
    CharRead(c, tail);
    hide ReadChar, EscapeChar;
  }

  lemma StringEnd(rest: string)
    ensures ReadString(['"'] + rest) == Ok("", rest)
  {
    assert (['"'] + rest)[1..] == rest;
  }

  lemma Assoc(a: string, b: string, c: string)
    ensures a + b + c == a + (b + c)
  {
  }

  /** Escaping is undone exactly, up to the NUL a C string stops at. */
  lemma {:induction false} StringRead(s: string, rest: string)
    ensures ReadString(Escape(s) + (['"'] + rest)) == Ok(CString(s), rest)
  {
    var tail := ['"'] + rest;
    hide ReadString, EscapeChar;
    if s == "" || s[0] == NUL {
      StringEnd(rest);
      assert Escape(s) + tail == tail;
    } else {
      StringRead(s[1..], rest);
      Assoc(EscapeChar(s[0]), Escape(s[1..]), tail);
      StringStep(s[0], Escape(s[1..]) + tail, CString(s[1..]), rest);
    }
  }

  /** The first character of a value decides how it is read. */
  lemma Starts(t: Json)
    ensures |Text(t)| > 0
    ensures var c := Text(t)[0];
      && !Space(c) && c != ']' && c != '}'
      && (c == '"' <==> t.Str?) && (c == '[' <==> t.Arr?) && (c == '{' <==> t.Obj?)
      && (c == 'n' <==> t.Null?) && (c == 't' <==> t == Bool(true)) && (c == 'f' <==> t == Bool(false))
  {
    if t.Int? {
      var n: int := t.n;
      FirstDigit(if n < 0 then -n else n);
    }
  }

  lemma WordRead(word: string, t: Json, rest: string)
    requires word != ""
    ensures ReadWord(word + rest, word, t) == Ok(t, rest)
  {
    assert (word + rest)[..|word|] == word;
    assert (word + rest)[|word|..] == rest;
  }

  lemma PlainRead(t: Json, rest: string)
    requires t.Null? || t.Bool? || (t.Int? && Ends(rest))
    ensures ReadValue(Text(t) + rest) == Ok(t, rest)
  {
    var s := Text(t) + rest;
    Starts(t);
    assert s[0] == Text(t)[0];
    match t
    case Null => WordRead("null", t, rest);
    case Bool(b) => WordRead(if b then "true" else "false", t, rest);
    case Int(n) => IntegerRead(n, rest);
  }

  lemma StrRead(v: string, rest: string)
    ensures ReadValue(Quote(v) + rest) == Ok(Str(CString(v)), rest)
  {
    var s := Quote(v) + rest;
    assert s[0] == '"' && s[1..] == Escape(v) + (['"'] + rest);
    StringRead(v, rest);
    hide Escape, ReadString, CString;
  }

  lemma NotSpace(s: string)
    requires s != "" && !Space(s[0])
    ensures SkipSpace(s) == s
  {
  }

  lemma OpenArray(s: string, vs: seq<Json>, rest: string)
    requires |s| > 1 && s[0] == '[' && SkipSpace(s[1..]) == s[1..]
    requires if s[1] == ']' then vs == [] && s[2..] == rest else ReadElems(s[1..]) == Ok(vs, rest)
    ensures ReadValue(s) == Ok(Arr(vs), rest)
  {
    NotSpace(s);
    var inside := s[1..];
    assert inside[1..] == s[2..];
    hide ReadElems, ReadMembers, ReadString, ReadWord, ReadInteger, SkipSpace;
  }

  lemma OpenObject(s: string, vs: seq<Member>, rest: string)
    requires |s| > 1 && s[0] == '{' && SkipSpace(s[1..]) == s[1..]
    requires if s[1] == '}' then vs == [] && s[2..] == rest else ReadMembers(s[1..]) == Ok(vs, rest)
    ensures ReadValue(s) == Ok(Obj(vs), rest)
  {
    NotSpace(s);
    var inside := s[1..];
    assert inside[1..] == s[2..];
    hide ReadElems, ReadMembers, ReadString, ReadWord, ReadInteger, SkipSpace;
  }

  lemma ArrRead(es: seq<Json>, rest: string)
    requires ElemsBack(es, rest)
    ensures ReadValue(Text(Arr(es)) + rest) == Ok(AsC(Arr(es)), rest)
  {
    var inside := Elems(false, es) + ([']'] + rest);
    var s := ['['] + inside;
    assert Text(Arr(es)) + rest == s;
    assert s[1..] == inside && s[2..] == inside[1..];
    hide Elems, ReadElems, ReadValue;
    OpenArray(s, AsCElems(es), rest);
  }

  lemma ObjRead(ms: seq<Member>, rest: string)
    requires MembersBack(ms, rest)
    ensures ReadValue(Text(Obj(ms)) + rest) == Ok(AsC(Obj(ms)), rest)
  {
    var inside := Members(false, ms) + (['}'] + rest);
    var s := ['{'] + inside;
    assert Text(Obj(ms)) + rest == s;
    assert s[1..] == inside && s[2..] == inside[1..];
    hide Members, ReadMembers, ReadValue;
    OpenObject(s, AsCMembers(ms), rest);
  }

  /** The elements of an array up to its closing bracket are read back. */
  predicate ElemsBack(es: seq<Json>, rest: string) {
    var s := Elems(false, es) + ([']'] + rest);
    && |s| > 0 && SkipSpace(s) == s
    && (es == [] <==> s[0] == ']') && (es == [] ==> s[1..] == rest)
    && (es != [] ==> ReadElems(s) == Ok(AsCElems(es), rest))
  }

  predicate MembersBack(ms: seq<Member>, rest: string) {
    var s := Members(false, ms) + (['}'] + rest);
    && |s| > 0 && SkipSpace(s) == s
    && (ms == [] <==> s[0] == '}') && (ms == [] ==> s[1..] == rest)
    && (ms != [] ==> ReadMembers(s) == Ok(AsCMembers(ms), rest))
  }

  lemma {:induction false} ValueRead(t: Json, rest: string)
    requires Ends(rest)
    ensures ReadValue(Text(t) + rest) == Ok(AsC(t), rest)
    decreases t
  {
    match t
    case Str(v) => StrRead(v, rest);
    case Arr(es) =>
      ElemsRead(es, rest);
      ArrRead(es, rest);
    case Obj(ms) =>
      MembersRead(ms, rest);
      ObjRead(ms, rest);
    case _ => PlainRead(t, rest);
  }

  lemma MoreElems(s: string, v: Json, after: string, vs: seq<Json>, rest: string)
    requires ReadValue(s) == Ok(v, after) && after != "" && SkipSpace(after) == after
    requires if after[0] == ']' then vs == [] && after[1..] == rest
             else after[0] == ',' && ReadElems(after[1..]) == Ok(vs, rest)
    ensures ReadElems(s) == Ok([v] + vs, rest)
  {
    hide ReadValue, SkipSpace;
    if after[0] == ']' {
      assert [v] + vs == [v];
    }
  }

  lemma ElemsShape(t: Json, es: seq<Json>, end: string)
    ensures Elems(false, [t] + es) + end == Text(t) + (Elems(true, es) + end)
  {
    var r := Elems(true, es);
    assert ([t] + es)[1..] == es;
    assert Elems(false, [t] + es) == Comma(false) + Text(t) + r;
    hide Text, Elems;
    assert Comma(false) + Text(t) == Text(t);
    Assoc(Text(t), r, end);
  }

  lemma ElemsAfter(es: seq<Json>, end: string)
    ensures Elems(true, es) + end == if es == [] then end else [','] + (Elems(false, es) + end)
  {
    hide Text;
    if es != [] {
      var t, r := Text(es[0]), Elems(true, es[1..]);
      assert Elems(true, es) == "," + t + r;
      assert Elems(false, es) == t + r by {
        assert "" + t == t;
      }
      hide Elems;
      assert "," + t + r + end == [','] + ((t + r) + end);
    }
  }

  /** One more element in front of those already known to be read back. */
  lemma ElemsStep(t: Json, es: seq<Json>, rest: string)
    requires ElemsBack(es, rest)
    requires var after := Elems(true, es) + ([']'] + rest); ReadValue(Text(t) + after) == Ok(AsC(t), after)
    ensures ElemsBack([t] + es, rest)
  {
    var end := [']'] + rest;
    var after := Elems(true, es) + end;
    var next := Elems(false, es) + end;
    var s := Text(t) + after;
    ElemsShape(t, es, end);
    ElemsAfter(es, end);
    Starts(t);
    assert s[0] == Text(t)[0];
    assert AsCElems([t] + es) == [AsC(t)] + AsCElems(es) by {
      assert ([t] + es)[1..] == es;
    }
    hide Elems, ReadValue, ReadElems, SkipSpace, Text, AsC, AsCElems;
    NotSpace(s);
    NotSpace(after);
    assert es == [] ==> after[1..] == rest;
    assert es != [] ==> after[0] == ',' && after[1..] == next;
    if es == [] {
      assert AsCElems(es) == [] by { NoElems(es); }
    }
    MoreElems(s, AsC(t), after, AsCElems(es), rest);
  }

  lemma NoElems(es: seq<Json>)
    requires es == []
    ensures AsCElems(es) == []
  {
  }

  lemma NoMembers(ms: seq<Member>)
    requires ms == []
    ensures AsCMembers(ms) == []
  {
  }

  lemma {:induction false} ElemsRead(es: seq<Json>, rest: string)
    ensures ElemsBack(es, rest)
    decreases es
  {
    if es == [] {
      assert Elems(false, es) + ([']'] + rest) == [']'] + rest;
    } else {
      ElemsRead(es[1..], rest);
      AfterEnds(es[1..], rest);
      ValueRead(es[0], Elems(true, es[1..]) + ([']'] + rest));
      ElemsStep(es[0], es[1..], rest);
      assert es == [es[0]] + es[1..];
    }
  }

  lemma AfterEnds(es: seq<Json>, rest: string)
    ensures Ends(Elems(true, es) + ([']'] + rest))
  {
  }

  lemma AfterMemberEnds(ms: seq<Member>, rest: string)
    ensures Ends(Members(true, ms) + (['}'] + rest))
  {
  }

  lemma MoreMembers(s: string, name: string, colon: string, v: Json, after: string, vs: seq<Member>, rest: string)
    requires s != "" && SkipSpace(s) == s && s[0] == '"' && ReadString(s[1..]) == Ok(name, colon)
    requires colon != "" && SkipSpace(colon) == colon && colon[0] == ':'
    requires ReadValue(colon[1..]) == Ok(v, after) && after != "" && SkipSpace(after) == after
    requires if after[0] == '}' then vs == [] && after[1..] == rest
             else after[0] == ',' && ReadMembers(after[1..]) == Ok(vs, rest)
    ensures ReadMembers(s) == Ok([Member(name, v)] + vs, rest)
  {
    hide ReadValue, ReadString, SkipSpace;
    if after[0] == '}' {
      assert [Member(name, v)] + vs == [Member(name, v)];
    }
  }

  lemma Regroup(e: string, t: string, r: string, end: string)
    ensures (['"'] + e + ['"']) + [':'] + t + r + end == ['"'] + (e + (['"'] + ([':'] + (t + (r + end)))))
  {
  }

  lemma MembersShape(m: Member, ms: seq<Member>, end: string)
    ensures Members(false, [m] + ms) + end
      == ['"'] + (Escape(m.name) + (['"'] + ([':'] + (Text(m.value) + (Members(true, ms) + end)))))
  {
    var q, t, r := Quote(m.name), Text(m.value), Members(true, ms);
    assert ([m] + ms)[1..] == ms;
    assert Members(false, [m] + ms) == Comma(false) + q + [':'] + t + r;
    hide Text, Escape, Members;
    assert Comma(false) + q == q;
    Regroup(Escape(m.name), t, r, end);
  }

  lemma MembersAfter(ms: seq<Member>, end: string)
    ensures Members(true, ms) + end == if ms == [] then end else [','] + (Members(false, ms) + end)
  {
    hide Text, Escape;
    if ms != [] {
      var q, t, r := Quote(ms[0].name), Text(ms[0].value), Members(true, ms[1..]);
      assert Members(true, ms) == "," + q + [':'] + t + r;
      assert Members(false, ms) == q + [':'] + t + r by {
        assert "" + q == q;
      }
      hide Members, Quote;
      CommaFirst(q, t, r, end);
    }
  }

  lemma CommaFirst(q: string, t: string, r: string, end: string)
    ensures "," + q + [':'] + t + r + end == [','] + ((q + [':'] + t + r) + end)
  {
  }

  lemma MembersStep(m: Member, ms: seq<Member>, rest: string)
    requires MembersBack(ms, rest)
    requires var after := Members(true, ms) + (['}'] + rest); ReadValue(Text(m.value) + after) == Ok(AsC(m.value), after)
    ensures MembersBack([m] + ms, rest)
  {
    var end := ['}'] + rest;
    var after := Members(true, ms) + end;
    var next := Members(false, ms) + end;
    var value := Text(m.value) + after;
    var body := Escape(m.name) + (['"'] + ([':'] + value));
    var s := ['"'] + body;
    MembersShape(m, ms, end);
    MembersAfter(ms, end);
    assert AsCMembers([m] + ms) == [Member(CString(m.name), AsC(m.value))] + AsCMembers(ms) by {
      assert ([m] + ms)[1..] == ms;
    }
    if ms == [] {
      NoMembers(ms);
    }
    hide Members, ReadValue, ReadMembers, ReadString, SkipSpace, Text, AsC, AsCMembers, Escape, CString;
    StringRead(m.name, [':'] + value);
    assert s[1..] == body;
    NotSpace(s);
    NotSpace(after);
    assert ms == [] ==> after[1..] == rest;
    assert ms != [] ==> after[0] == ',' && after[1..] == next;
    NotSpace([':'] + value);
    assert ([':'] + value)[1..] == value;
    MoreMembers(s, CString(m.name), [':'] + value, AsC(m.value), after, AsCMembers(ms), rest);
  }

  lemma {:induction false} MembersRead(ms: seq<Member>, rest: string)
    ensures MembersBack(ms, rest)
    decreases ms
  {
    if ms == [] {
      assert Members(false, ms) + (['}'] + rest) == ['}'] + rest;
    } else {
      MembersRead(ms[1..], rest);
      AfterMemberEnds(ms[1..], rest);
      ValueRead(ms[0].value, Members(true, ms[1..]) + (['}'] + rest));
      MembersStep(ms[0], ms[1..], rest);
      assert ms == [ms[0]] + ms[1..];
    }
  }

  /** Reading a written document gives the tree back, strings cut at their first NUL. */
  lemma RoundTrip(t: Json)
    ensures Read(Text(t)) == Ok(AsC(t), "")
  {
    ValueRead(t, "");
    assert Text(t) + "" == Text(t);
  }

  predicate NulFree(t: Json)
    decreases t
  {
    match t
    case Str(s) => NUL !in s
    case Arr(es) => forall e :: e in es ==> NulFree(e)
    case Obj(ms) => forall m :: m in ms ==> NUL !in m.name && NulFree(m.value)
    case _ => true
  }

  lemma {:induction false} CStringWhole(s: string)
    ensures CString(s) == s <==> NUL !in s
  {
    if s != "" && s[0] != NUL {
      CStringWhole(s[1..]);
      assert s == [s[0]] + s[1..];
    }
  }

  lemma {:induction false} ElemsAsC(es: seq<Json>)
    ensures AsCElems(es) == es <==> forall e :: e in es ==> AsC(e) == e
  {
    if es != [] {
      var head, tail := es[0], es[1..];
      ElemsAsC(tail);
      assert AsCElems(es) == [AsC(head)] + AsCElems(tail);
      hide AsC, AsCElems;
      assert es == [head] + tail;
      SplitEqual(AsC(head), AsCElems(tail), head, tail);
      assert forall e :: e in es <==> e == head || e in tail;
    }
  }

  lemma SplitEqual<T>(a: T, x: seq<T>, b: T, y: seq<T>)
    ensures [a] + x == [b] + y <==> a == b && x == y
  {
    assert ([a] + x)[0] == a && ([a] + x)[1..] == x;
    assert ([b] + y)[0] == b && ([b] + y)[1..] == y;
  }

  lemma {:induction false} MembersAsC(ms: seq<Member>)
    ensures AsCMembers(ms) == ms <==> forall m :: m in ms ==> CString(m.name) == m.name && AsC(m.value) == m.value
  {
    if ms != [] {
      var head, tail := ms[0], ms[1..];
      var cut := Member(CString(head.name), AsC(head.value));
      MembersAsC(tail);
      assert AsCMembers(ms) == [cut] + AsCMembers(tail);
      hide AsC, AsCMembers, CString;
      assert ms == [head] + tail;
      SplitEqual(cut, AsCMembers(tail), head, tail);
      assert cut == head <==> CString(head.name) == head.name && AsC(head.value) == head.value;
      assert forall m :: m in ms <==> m == head || m in tail;
    }
  }

  lemma {:induction false} UnchangedAsC(t: Json)
    ensures AsC(t) == t <==> NulFree(t)
    decreases t
  {
    match t
    case Str(s) => CStringWhole(s);
    case Arr(es) =>
      ElemsAsC(es);
      forall e | e in es ensures AsC(e) == e <==> NulFree(e) {
        UnchangedAsC(e);
      }
    case Obj(ms) =>
      MembersAsC(ms);
      forall m | m in ms ensures CString(m.name) == m.name && AsC(m.value) == m.value <==> NUL !in m.name && NulFree(m.value) {
        CStringWhole(m.name);
        UnchangedAsC(m.value);
      }
    case _ =>
  }

  /** The round trip is exact for the trees whose strings hold no NUL, and for no other. */
  lemma ExactRoundTrip(t: Json)
    ensures Read(Text(t)) == Ok(t, "") <==> NulFree(t)
  {
    RoundTrip(t);
    UnchangedAsC(t);
  }
}
