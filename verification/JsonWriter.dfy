/** The chained writer: each call appends to one buffer and remembers whether the
    next sibling needs a comma. */
module JsonWriter {
  import opened JsonText

  class Writer {
    var buf: string
    var stack: seq<bool>
    var needComma: bool

    constructor ()
      ensures buf == "" && stack == [] && !needComma
    {
      buf, stack, needComma := "", [], false;
    }

    method BeginObject()
      modifies this
      ensures buf == old(buf) + Comma(old(needComma)) + ['{']
      ensures !needComma && |stack| == |old(stack)| + 1 && stack[..|old(stack)|] == old(stack)
    {
      PutComma();
      buf := buf + ['{'];
      stack := stack + [false];
      needComma := false;
    }

    method EndObject()
      requires |stack| > 0
      modifies this
      ensures buf == old(buf) + ['}']
      ensures needComma && stack == old(stack[..|stack| - 1])
    {
      buf := buf + ['}'];
      stack := stack[..|stack| - 1];
      needComma := true;
    }

    method BeginArray()
      modifies this
      ensures buf == old(buf) + Comma(old(needComma)) + ['[']
      ensures !needComma && |stack| == |old(stack)| + 1 && stack[..|old(stack)|] == old(stack)
    {
      PutComma();
      buf := buf + ['['];
      stack := stack + [false];
      needComma := false;
    }

    method EndArray()
      requires |stack| > 0
      modifies this
      ensures buf == old(buf) + [']']
      ensures needComma && stack == old(stack[..|stack| - 1])
    {
      buf := buf + [']'];
      stack := stack[..|stack| - 1];
      needComma := true;
    }

    method Key(k: string)
      modifies this
      ensures buf == old(buf) + Comma(old(needComma)) + Quote(k) + [':']
      ensures !needComma && stack == old(stack)
    {
      PutComma();
      PutEscaped(k);
      buf := buf + [':'];
      needComma := false;
    }

    method ValString(s: string)
      modifies this
      ensures buf == old(buf) + Comma(old(needComma)) + Quote(s)
      ensures needComma && stack == old(stack)
    {
      PutComma();
      PutEscaped(s);
      needComma := true;
    }

    method ValInt(v: Int64)
      modifies this
      ensures buf == old(buf) + Comma(old(needComma)) + Decimal(v)
      ensures needComma && stack == old(stack)
    {
      PutComma();
      buf := buf + Decimal(v);
      needComma := true;
    }

    method ValBool(v: bool)
      modifies this
      ensures buf == old(buf) + Comma(old(needComma)) + (if v then "true" else "false")
      ensures needComma && stack == old(stack)
    {
      PutComma();
      buf := buf + if v then "true" else "false";
      needComma := true;
    }

    method NullVal()
      modifies this
      ensures buf == old(buf) + Comma(old(needComma)) + "null"
      ensures needComma && stack == old(stack)
    {
      PutComma();
      buf := buf + "null";
      needComma := true;
    }

    method PutComma()
      modifies `buf
      ensures buf == old(buf) + Comma(needComma)
    {
      if needComma {
        buf := buf + [','];
      }
    }

    /** Characters are escaped one by one up to the terminating NUL. */
    method PutEscaped(s: string)
      modifies `buf
      ensures buf == old(buf) + Quote(s)
    {
      ghost var start := buf + ['"'];
      buf := buf + ['"'];
      var i := 0;
      assert s[0..] == s;
      while i < |s| && s[i] != NUL
        invariant i <= |s| && buf + Escape(s[i..]) == start + Escape(s)
      {
        assert s[i..][1..] == s[i + 1..];
        assert Escape(s[i..]) == EscapeChar(s[i]) + Escape(s[i + 1..]);
        Assoc(buf, EscapeChar(s[i]), Escape(s[i + 1..]));
        hide Escape, EscapeChar;
        PutEscapedChar(s[i]);
        i := i + 1;
      }
      assert Escape(s[i..]) == "";
      hide Escape;
      assert buf == start + Escape(s);
      buf := buf + ['"'];
      Quoted(old(buf), Escape(s));
    }

    method PutEscapedChar(c: char)
      modifies `buf
      ensures buf == old(buf) + EscapeChar(c)
    {
      if c == '"' { buf := buf + "\\\""; }
      else if c == '\\' { buf := buf + "\\\\"; }
      else if c == 8 as char { buf := buf + "\\b"; }
      else if c == 12 as char { buf := buf + "\\f"; }
      else if c == '\n' { buf := buf + "\\n"; }
      else if c == '\r' { buf := buf + "\\r"; }
      else if c == '\t' { buf := buf + "\\t"; }
      else if c < ' ' {
        buf := buf + ['\\', 'u', '0', '0', HexDigit(c as int / 16), HexDigit(c as int % 16)];
      } else { buf := buf + [c]; }
    }
  }

  lemma Quoted(before: string, e: string)
    ensures before + ['"'] + e + ['"'] == before + (['"'] + e + ['"'])
  {
  }

  lemma Bracketed(before: string, open: string, inside: string, close: string)
    ensures before + open + inside + close == before + (open + inside + close)
  {
  }

  lemma NextElem(before: string, need: bool, es: seq<Json>, i: nat)
    requires i < |es|
    ensures before + Comma(need) + Text(es[i]) + Elems(true, es[i + 1..]) == before + Elems(need, es[i..])
  {
    assert es[i..][1..] == es[i + 1..];
    assert Elems(need, es[i..]) == Comma(need) + Text(es[i]) + Elems(true, es[i + 1..]);
    hide Elems, Text, Comma;
    Bracketed(before, Comma(need), Text(es[i]), Elems(true, es[i + 1..]));
  }

  lemma NextMember(before: string, need: bool, ms: seq<Member>, i: nat)
    requires i < |ms|
    ensures before + Comma(need) + Quote(ms[i].name) + [':'] + Comma(false) + Text(ms[i].value) + Members(true, ms[i + 1..])
         == before + Members(need, ms[i..])
  {
    assert ms[i..][1..] == ms[i + 1..];
    var c, q, t, r := Comma(need), Quote(ms[i].name), Text(ms[i].value), Members(true, ms[i + 1..]);
    assert Members(need, ms[i..]) == c + q + [':'] + t + r;
    hide Members, Text, Quote;
    Chain(before, c, q, t, r);
  }

  lemma Chain(before: string, c: string, q: string, t: string, r: string)
    ensures before + c + q + [':'] + "" + t + r == before + (c + q + [':'] + t + r)
  {
  }

  // ---- Writing a tree with those calls ----

  method Emit(w: Writer, t: Json)
    modifies w
    ensures w.buf == old(w.buf) + Comma(old(w.needComma)) + Text(t)
    ensures w.needComma && w.stack == old(w.stack)
    decreases t
  {
    hide Elems, Members, Comma, Quote, Decimal;
    match t
    case Null => w.NullVal();
    case Bool(b) => w.ValBool(b);
    case Int(n) => w.ValInt(n);
    case Str(s) => w.ValString(s);
    case Arr(es) =>
      w.BeginArray();
      EmitElems(w, es);
      w.EndArray();
      Bracketed(old(w.buf) + Comma(old(w.needComma)), ['['], Elems(false, es), [']']);
    case Obj(ms) =>
      w.BeginObject();
      EmitMembers(w, ms);
      w.EndObject();
      Bracketed(old(w.buf) + Comma(old(w.needComma)), ['{'], Members(false, ms), ['}']);
  }

  method EmitElems(w: Writer, es: seq<Json>)
    modifies w
    ensures w.buf == old(w.buf) + Elems(old(w.needComma), es) && w.stack == old(w.stack)
    decreases es
  {
    for i := 0 to |es|
      invariant w.stack == old(w.stack)
      invariant w.buf + Elems(w.needComma, es[i..]) == old(w.buf) + Elems(old(w.needComma), es)
    {
      NextElem(w.buf, w.needComma, es, i);
      hide Elems, Text, Comma;
      Emit(w, es[i]);
    }
  }

  method EmitMembers(w: Writer, ms: seq<Member>)
    modifies w
    ensures w.buf == old(w.buf) + Members(old(w.needComma), ms) && w.stack == old(w.stack)
    decreases ms
  {
    for i := 0 to |ms|
      invariant w.stack == old(w.stack)
      invariant w.buf + Members(w.needComma, ms[i..]) == old(w.buf) + Members(old(w.needComma), ms)
    {
      NextMember(w.buf, w.needComma, ms, i);
      hide Members, Text, Comma, Quote;
      w.Key(ms[i].name);
      Emit(w, ms[i].value);
    }
  }

  /** A document written from scratch reads back as the tree it was written from. */
  method Write(t: Json) returns (text: string)
    ensures Read(text) == Ok(AsC(t), "")
    ensures Read(text) == Ok(t, "") <==> NulFree(t)
  {
    var w := new Writer();
    Emit(w, t);
    text := w.buf;
    assert text == Text(t);
    RoundTrip(t);
    ExactRoundTrip(t);
  }
}
