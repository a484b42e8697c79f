/** The bytes of replies, spelled out: the text of a response, the error responses kept ready in error.go, and which of
    them a message gets that is no batch. */
module ReplyText {
  import opened Wrappers
  import opened Bytes
  import opened Decimal
  import opened JsonGrammar
  import opened Dispatch
  import opened Conformity
  import SilenceScan
  import BatchSplit

  // ---- the text of a response ----

  /** A field under its quoted name; key is the name with its quotes and colon, lead what stands before it. */
  lemma FieldText(lead: string, name: string, key: string, value: bytes)
    requires lead + "\"" + name + "\":" == key
    ensures Ascii(lead) + Field(Ascii(name), value) == Ascii(key) + value
  {
    AsciiConcat(lead, "\"");
    AsciiConcat(lead + "\"", name);
    AsciiConcat(lead + "\"" + name, "\":");
    assert Ascii("\"") == [QUOTE] && Ascii("\":") == [QUOTE, COLON];
  }

  lemma BareFieldText(name: string, key: string, value: bytes)
    requires "\"" + name + "\":" == key
    ensures Field(Ascii(name), value) == Ascii(key) + value
  {
    AsciiConcat("\"", name);
    AsciiConcat("\"" + name, "\":");
    assert Ascii("\"") == [QUOTE] && Ascii("\":") == [QUOTE, COLON];
  }

  lemma QuotedText(s: string, quoted: string)
    requires "\"" + s + "\"" == quoted
    ensures [QUOTE] + Ascii(s) + [QUOTE] == Ascii(quoted)
  {
    AsciiConcat("\"", s);
    AsciiConcat("\"" + s, "\"");
    assert Ascii("\"") == [QUOTE];
  }

  lemma Punctuation()
    ensures Ascii("{") == [LBRACE] && Ascii("}") == [RBRACE] && Ascii(",") == [COMMA] && Ascii("") == []
  {
  }

  lemma HeadText()
    ensures [LBRACE] + Field(Ascii("jsonrpc"), [QUOTE] + Ascii("2.0") + [QUOTE]) + [COMMA]
         == Ascii("{\"jsonrpc\":\"2.0\",")
  {
    Punctuation();
    QuotedText("2.0", "\"2.0\"");
    FieldText("{", "jsonrpc", "{\"jsonrpc\":", Ascii("\"2.0\""));
    Concat("{\"jsonrpc\":", "\"2.0\"", "{\"jsonrpc\":\"2.0\"");
    Concat("{\"jsonrpc\":\"2.0\"", ",", "{\"jsonrpc\":\"2.0\",");
  }

  /** The first field and the last, around whatever stands between them. */
  lemma Between(open: bytes, head: bytes, comma: bytes, body: bytes, tail: bytes, close: bytes)
    ensures open + (head + (comma + (body + tail))) + close == (open + head + comma) + body + tail + close
  {
  }

  lemma TextFrame(r: Response)
    ensures Text(r)
         == Ascii("{\"jsonrpc\":\"2.0\",") + BodyField(r.body) + (Ascii(",\"id\":") + OrNull(r.id)) + Ascii("}")
  {
    HeadText();
    Punctuation();
    FieldText(",", "id", ",\"id\":", OrNull(r.id));
    Between([LBRACE], Field(Ascii("jsonrpc"), [QUOTE] + Ascii("2.0") + [QUOTE]), [COMMA], BodyField(r.body),
            [COMMA] + Field(Ascii("id"), OrNull(r.id)), [RBRACE]);
  }

  /** The value, or null when there is none. */
  lemma OrNullIs(raw: bytes)
    ensures OrNull(raw) == if raw == [] then [110, 117, 108, 108] else raw
  {
    NullBytes();
  }

  lemma ResultWhole(head: bytes, key: bytes, lead: bytes, value: bytes, sep: bytes, id: bytes, close: bytes)
    requires head + key == lead
    ensures head + (key + value) + (sep + id) + close == lead + value + sep + id + close
  {
  }

  lemma ResultField(raw: bytes)
    ensures BodyField(Result(raw)) == Ascii("\"result\":") + OrNull(raw)
  {
    BareFieldText("result", "\"result\":", OrNull(raw));
  }

  /** The text of a result: its bytes, or null when there are none, and the id, or null when there is none. */
  function ResultBytes(raw: bytes, id: bytes): bytes {
    Ascii("{\"jsonrpc\":\"2.0\",\"result\":") + (if raw == [] then [110, 117, 108, 108] else raw)
    + Ascii(",\"id\":") + (if id == [] then [110, 117, 108, 108] else id) + Ascii("}")
  }

  lemma ResultText(raw: bytes, id: bytes)
    ensures Text(Response(Result(raw), id)) == ResultBytes(raw, id)
  {
    OrNullIs(raw);
    OrNullIs(id);
    TextFrame(Response(Result(raw), id));
    ResultField(raw);
    Concat("{\"jsonrpc\":\"2.0\",", "\"result\":", "{\"jsonrpc\":\"2.0\",\"result\":");
    ResultWhole(Ascii("{\"jsonrpc\":\"2.0\","), Ascii("\"result\":"), Ascii("{\"jsonrpc\":\"2.0\",\"result\":"),
                OrNull(raw), Ascii(",\"id\":"), OrNull(id), Ascii("}"));
  }

  /** The data member, with the comma before it, if there is data. */
  function DataText(data: Data): bytes {
    if data.Json? then Ascii(",\"data\":") + (if data.text == [] then [110, 117, 108, 108] else data.text) else []
  }

  lemma ErrorParts(open: bytes, code: bytes, comma: bytes, message: bytes, data: bytes, close: bytes)
    ensures open + (code + (comma + (message + data))) + close == (open + code) + (comma + message) + data + close
  {
  }

  lemma ErrorObjectText(code: int, message: bytes, data: Data)
    ensures ErrorText(code, message, data)
         == (Ascii("{\"code\":") + PrintInt(code)) + (Ascii(",\"message\":") + message) + DataText(data) + Ascii("}")
  {
    Punctuation();
    FieldText("{", "code", "{\"code\":", PrintInt(code));
    FieldText(",", "message", ",\"message\":", message);
    var d := if data.Json? then [COMMA] + Field(Ascii("data"), OrNull(data.text)) else [];
    if data.Json? {
      FieldText(",", "data", ",\"data\":", OrNull(data.text));
      OrNullIs(data.text);
    }
    ErrorParts([LBRACE], Field(Ascii("code"), PrintInt(code)), [COMMA], Field(Ascii("message"), message), d, [RBRACE]);
  }

  lemma ErrorWhole(head: bytes, key: bytes, brace: bytes, lead: bytes, code: bytes, sep: bytes, message: bytes,
                   data: bytes, end: bytes, comma: bytes, mid: bytes, id: bytes, close: bytes)
    requires head + key + brace == lead && end + comma == mid
    ensures head + (key + ((brace + code) + (sep + message) + data + end)) + (comma + id) + close
         == lead + code + sep + message + data + mid + id + close
  {
  }

  lemma ErrorHead()
    ensures Ascii("{\"jsonrpc\":\"2.0\",") + Ascii("\"error\":") + Ascii("{\"code\":")
         == Ascii("{\"jsonrpc\":\"2.0\",\"error\":{\"code\":")
    ensures Ascii("}") + Ascii(",\"id\":") == Ascii("},\"id\":")
  {
    Concat("{\"jsonrpc\":\"2.0\",", "\"error\":", "{\"jsonrpc\":\"2.0\",\"error\":");
    Concat("{\"jsonrpc\":\"2.0\",\"error\":", "{\"code\":", "{\"jsonrpc\":\"2.0\",\"error\":{\"code\":");
    Concat("}", ",\"id\":", "},\"id\":");
  }

  lemma ErrorField(code: int, message: bytes, data: Data)
    ensures BodyField(Error(code, message, data)) == Ascii("\"error\":") + ErrorText(code, message, data)
  {
    BareFieldText("error", "\"error\":", ErrorText(code, message, data));
  }

  /** The text of an error: its code as a number, its message, its data if there is any, and the id. */
  function ErrorBytes(code: int, message: bytes, data: Data, id: bytes): bytes {
    Ascii("{\"jsonrpc\":\"2.0\",\"error\":{\"code\":") + PrintInt(code) + Ascii(",\"message\":") + message
    + DataText(data) + Ascii("},\"id\":") + (if id == [] then [110, 117, 108, 108] else id) + Ascii("}")
  }

  lemma ErrorReplyText(code: int, message: bytes, data: Data, id: bytes)
    ensures Text(Response(Error(code, message, data), id)) == ErrorBytes(code, message, data, id)
  {
    OrNullIs(id);
    TextFrame(Response(Error(code, message, data), id));
    ErrorField(code, message, data);
    ErrorObjectText(code, message, data);
    ErrorHead();
    ErrorWhole(Ascii("{\"jsonrpc\":\"2.0\","), Ascii("\"error\":"), Ascii("{\"code\":"),
               Ascii("{\"jsonrpc\":\"2.0\",\"error\":{\"code\":"), PrintInt(code), Ascii(",\"message\":"), message,
               DataText(data), Ascii("}"), Ascii(",\"id\":"), Ascii("},\"id\":"), OrNull(id), Ascii("}"));
  }

  /** Every reply is one of these two. */
  lemma TextIs(r: Response)
    ensures Text(r) == match r.body
                       case Result(raw) => ResultBytes(raw, r.id)
                       case Error(code, message, data) => ErrorBytes(code, message, data, r.id)
  {
    match r.body
    case Result(raw) => ResultText(raw, r.id);
    case Error(code, message, data) => ErrorReplyText(code, message, data, r.id);
  }

  // ---- the error responses kept ready ----

  lemma DigitOf(n: nat)
    ensures n < 10 ==> Print(n) == [48 + n]
    ensures n >= 10 ==> Print(n) == Print(n / 10) + [48 + n % 10]
  {
  }

  lemma LeadingDigits()
    ensures Print(327) == [51, 50, 55] && Print(326) == [51, 50, 54]
  {
    DigitOf(3);
    DigitOf(32);
    DigitOf(327);
    DigitOf(326);
  }

  lemma CodesPrint()
    ensures PrintInt(-32700) == Ascii("-32700") && PrintInt(-32600) == Ascii("-32600")
    ensures PrintInt(-32603) == Ascii("-32603")
  {
    LeadingDigits();
    assert Print(3270) == [51, 50, 55, 48] by { DigitOf(3270); }
    assert Print(3260) == [51, 50, 54, 48] by { DigitOf(3260); }
    assert Print(32700) == [51, 50, 55, 48, 48] by { DigitOf(32700); }
    assert Print(32600) == [51, 50, 54, 48, 48] by { DigitOf(32600); }
    assert Print(32603) == [51, 50, 54, 48, 51] by { DigitOf(32603); }
    assert Ascii("-32700") == [45, 51, 50, 55, 48, 48] && Ascii("-32600") == [45, 51, 50, 54, 48, 48]
           && Ascii("-32603") == [45, 51, 50, 54, 48, 51];
  }

  lemma FivePieces(a: string, b: string, c: string, d: string, e: string, whole: string)
    requires a + b + c + d + e == whole
    ensures Ascii(a) + Ascii(b) + Ascii(c) + Ascii(d) + Ascii(e) == Ascii(whole)
  {
    AsciiConcat(a, b);
    AsciiConcat(a + b, c);
    AsciiConcat(a + b + c, d);
    AsciiConcat(a + b + c + d, e);
  }

  lemma NullTail()
    ensures Ascii("},\"id\":") + [110, 117, 108, 108] + Ascii("}") == Ascii("},\"id\":null}")
  {
    NullBytes();
    Concat("},\"id\":", "null", "},\"id\":null");
    Concat("},\"id\":null", "}", "},\"id\":null}");
  }

  lemma LastThree(a: bytes, none: bytes, b: bytes, c: bytes, d: bytes)
    requires none == []
    ensures a + none + b + c + d == a + (b + c + d)
  {
  }

  /** An error response under a null id. */
  function ErrorLine(code: string, message: string): string {
    "{\"jsonrpc\":\"2.0\",\"error\":{\"code\":" + code + ",\"message\":" + ("\"" + message + "\"") + "},\"id\":null}"
  }

  lemma RefusalIs(code: int, digits: string, message: string)
    requires PrintInt(code) == Ascii(digits)
    ensures Text(Response(Error(code, [QUOTE] + Ascii(message) + [QUOTE], NoData), []))
         == Ascii(ErrorLine(digits, message))
  {
    var quoted := "\"" + message + "\"";
    QuotedText(message, quoted);
    ErrorReplyText(code, Ascii(quoted), NoData, []);
    NullTail();
    LastThree(Ascii("{\"jsonrpc\":\"2.0\",\"error\":{\"code\":") + Ascii(digits) + Ascii(",\"message\":")
              + Ascii(quoted),
              DataText(NoData), Ascii("},\"id\":"), [110, 117, 108, 108], Ascii("}"));
    FivePieces("{\"jsonrpc\":\"2.0\",\"error\":{\"code\":", digits, ",\"message\":", quoted, "},\"id\":null}",
               ErrorLine(digits, message));
  }

  /** The five error responses, byte for byte. */
  lemma RefusalTexts()
    ensures RefusalText(Internal) == Ascii(ErrorLine("-32603", "internal_error"))
    ensures RefusalText(InvalidRequest) == Ascii(ErrorLine("-32600", "invalid_request_not_conforming_to_spec"))
    ensures RefusalText(BatchTooLarge) == Ascii(ErrorLine("-32600", "batch_too_large"))
    ensures RefusalText(RequestTooLarge) == Ascii(ErrorLine("-32600", "request_too_large"))
    ensures RefusalText(ParseError) == Ascii(ErrorLine("-32700", "parse_error_not_well_formed"))
  {
    CodesPrint();
    RefusalIs(-32603, "-32603", "internal_error");
    RefusalIs(-32600, "-32600", "invalid_request_not_conforming_to_spec");
    RefusalIs(-32600, "-32600", "batch_too_large");
    RefusalIs(-32600, "-32600", "request_too_large");
    RefusalIs(-32700, "-32700", "parse_error_not_well_formed");
  }
}
