/**
 * Values of src/catalog/value.cpp: a type tag and a payload that need not agree, and the decoding
 * of string literals.
 */
module Values {
  import opened Prelude
  import opened Ast

  datatype Payload = IntPayload(int64: Int64) | TextPayload(text: string)

  datatype Value = Value(tag: LogicalType, payload: Payload) {
    /** `as_int`: aborts unless both the tag and the payload are integers. */
    function AsInt(): Outcome<Int64> {
      if tag.IntType? && payload.IntPayload? then Ok(payload.int64) else Abort
    }

    /** `as_text`: aborts unless both the tag and the payload are text. */
    function AsText(): Outcome<string> {
      if tag.TextType? && payload.TextPayload? then Ok(payload.text) else Abort
    }

    predicate PayloadMatchesTag() {
      match tag
      case IntType => payload.IntPayload?
      case TextType => payload.TextPayload?
    }
  }

  type Row = seq<Value>

  function FromInt(n: Int64): Value {
    Value(IntType, IntPayload(n))
  }

  function FromText(s: string): Value {
    Value(TextType, TextPayload(s))
  }

  predicate IsLiteral(e: Expression) {
    e.IntegerLiteral? || e.StringLiteral?
  }

  function FromExpression(e: Expression): Outcome<Value> {
    match e
    case IntegerLiteral(n) => Ok(FromInt(n))
    case StringLiteral(lexeme) => Ok(FromText(Decode(lexeme)))
    case _ => Fail
  }

  // ----- string literals -----

  predicate IsDelimited(lexeme: string) {
    2 <= |lexeme| && lexeme[0] == '\'' && lexeme[|lexeme| - 1] == '\''
  }

  /**
   * What the decoding loop pushes when it starts at an index whose remaining characters, the
   * closing quote included, are `rest`.
   */
  function DecodeBody(rest: string): string {
    if |rest| <= 1 then ""
    else if rest[0] == '\'' && rest[1] == '\'' then "'" + DecodeBody(rest[2..])
    else [rest[0]] + DecodeBody(rest[1..])
  }

  function Decode(lexeme: string): string {
    if IsDelimited(lexeme) then DecodeBody(lexeme[1..]) else lexeme
  }

  lemma DecodeStep(lexeme: string, index: nat)
    requires index + 1 < |lexeme|
    ensures DecodeBody(lexeme[index..]) ==
      if lexeme[index] == '\'' && lexeme[index + 1] == '\'' then "'" + DecodeBody(lexeme[index + 2..])
      else [lexeme[index]] + DecodeBody(lexeme[index + 1..])
  {
    assert lexeme[index..][1..] == lexeme[index + 1..];
    assert lexeme[index..][2..] == lexeme[index + 2..];
  }

  method DecodeStringLiteral(lexeme: string) returns (decoded: string)
    ensures decoded == Decode(lexeme)
  {
    if |lexeme| < 2 || lexeme[0] != '\'' || lexeme[|lexeme| - 1] != '\'' {
      return lexeme;
    }
    decoded := "";
    var index := 1;
    while index + 1 < |lexeme|
      invariant 1 <= index <= |lexeme|
      invariant DecodeBody(lexeme[1..]) == decoded + DecodeBody(lexeme[index..])
    {
      hide DecodeBody;
      DecodeStep(lexeme, index);
      var character := lexeme[index];
      if character == '\'' && index + 1 < |lexeme| && lexeme[index + 1] == '\'' {
        Associative(decoded, "'", DecodeBody(lexeme[index + 2..]));
        decoded := decoded + "'";
        index := index + 2;
      } else {
        Associative(decoded, [character], DecodeBody(lexeme[index + 1..]));
        decoded := decoded + [character];
        index := index + 1;
      }
    }
  }

  lemma Associative(a: string, b: string, c: string)
    ensures a + (b + c) == a + b + c
  {
  }

  /** Every quote doubled, as SQL escapes it inside a literal. */
  function Escape(s: string): string {
    if s == "" then ""
    else (if s[0] == '\'' then "''" else [s[0]]) + Escape(s[1..])
  }

  function Quote(s: string): string {
    "'" + Escape(s) + "'"
  }

  /** What may stand between the delimiters of a literal: quotes come in pairs. */
  predicate IsEscaped(body: string) {
    if body == "" then true
    else if body[0] == '\'' then 2 <= |body| && body[1] == '\'' && IsEscaped(body[2..])
    else IsEscaped(body[1..])
  }

  predicate IsQuotedLiteral(lexeme: string) {
    IsDelimited(lexeme) && IsEscaped(lexeme[1..|lexeme| - 1])
  }

  /** Decoding undoes quoting, for every string. */
  lemma DecodeQuote(s: string)
    ensures IsQuotedLiteral(Quote(s)) && Decode(Quote(s)) == s
  {
    EscapeIsEscaped(s);
    assert Quote(s)[1..|Quote(s)| - 1] == Escape(s);
    assert Quote(s)[1..] == Escape(s) + "'";
    DecodeBodyEscape(s);
  }

  lemma {:induction false} EscapeIsEscaped(s: string)
    ensures IsEscaped(Escape(s))
  {
    if s != "" {
      EscapeIsEscaped(s[1..]);
      var head := if s[0] == '\'' then "''" else [s[0]];
      assert Escape(s)[|head|..] == Escape(s[1..]);
    }
  }

  lemma {:induction false} DecodeBodyEscape(s: string)
    ensures DecodeBody(Escape(s) + "'") == s
  {
    if s != "" {
      DecodeBodyEscape(s[1..]);
      var head := if s[0] == '\'' then "''" else [s[0]];
      assert (Escape(s) + "'")[|head|..] == Escape(s[1..]) + "'";
      assert s == [s[0]] + s[1..];
    }
  }

  /** Quoting undoes decoding, for every well-formed literal. */
  lemma QuoteDecode(lexeme: string)
    requires IsQuotedLiteral(lexeme)
    ensures Quote(Decode(lexeme)) == lexeme
  {
    var body := lexeme[1..|lexeme| - 1];
    assert lexeme[1..] == body + "'";
    EscapeDecodeBody(body);
    assert lexeme == "'" + body + "'";
  }

  lemma {:induction false} EscapeDecodeBody(body: string)
    requires IsEscaped(body)
    ensures Escape(DecodeBody(body + "'")) == body
  {
    if body != "" {
      var n := if body[0] == '\'' then 2 else 1;
      EscapeDecodeBody(body[n..]);
      assert (body + "'")[n..] == body[n..] + "'";
      assert body == body[..n] + body[n..];
      var tail := DecodeBody(body[n..] + "'");
      assert DecodeBody(body + "'") == [body[0]] + tail;
      assert ([body[0]] + tail)[1..] == tail;
    }
  }
}
