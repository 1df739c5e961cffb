/**
 * Rendering of a method descriptor as a one-line proto signature
 * (`trimDotFunc`, `dumpMethodAsProto`), and a parser that inverts it.
 */
module Signature {
  import opened Wrappers
  import opened GoStrings
  import opened Descriptors

  /** `trimDotFunc`: the character trimmed off the front of type names. */
  predicate IsDot(c: char)
  {
    c == '.'
  }

  /** `strings.TrimLeftFunc(t, trimDotFunc)`: a type name without its leading dots. */
  function TrimDots(t: string): (r: string)
    ensures |r| <= |t| && r == t[|t| - |r|..]
    ensures forall k :: 0 <= k < |t| - |r| ==> t[k] == '.'
    ensures r == [] || r[0] != '.'
  {
    TrimLeftFunc(t, IsDot)
  }

  /** `n` dots. */
  function Dots(n: nat): (d: string)
    ensures |d| == n && forall k :: 0 <= k < n ==> d[k] == '.'
  {
    seq(n, _ => '.')
  }

  /** Trimming removes every leading dot and nothing after the first other character. */
  lemma {:induction false} TrimDotsExactly(n: nat, rest: string)
    requires rest == [] || rest[0] != '.'
    ensures TrimDots(Dots(n) + rest) == rest
  {
    if n > 0 {
      assert (Dots(n) + rest)[1..] == Dots(n - 1) + rest;
      TrimDotsExactly(n - 1, rest);
    } else {
      assert Dots(n) + rest == rest;
    }
  }

  /** A name that does not start with a dot is returned unchanged. */
  lemma TrimDotsNoLeadingDot(t: string)
    requires t == [] || t[0] != '.'
    ensures TrimDots(t) == t
  {
    TrimDotsExactly(0, t);
  }

  /** Trimming twice is trimming once. */
  lemma TrimDotsIdempotent(t: string)
    ensures TrimDots(TrimDots(t)) == TrimDots(t)
  {
    TrimDotsNoLeadingDot(TrimDots(t));
  }

  lemma TrimDotsExamples()
    ensures TrimDots(".pkg.Req") == "pkg.Req"
    ensures TrimDots(".pkg.Res") == "pkg.Res"
    ensures TrimDots("pkg..Req") == "pkg..Req"
  {
    assert ".pkg.Req" == Dots(1) + "pkg.Req";
    assert ".pkg.Res" == Dots(1) + "pkg.Res";
    TrimDotsExactly(1, "pkg.Req");
    TrimDotsExactly(1, "pkg.Res");
    TrimDotsNoLeadingDot("pkg..Req");
  }

  /** The pieces of a rendered signature. */
  datatype Parts = Parts(
    name: string,
    clientStreaming: bool,
    inputType: string,
    serverStreaming: bool,
    outputType: string)

  /** `flag != nil && *flag == true`: a nil flag counts as false. */
  predicate IsSet(flag: Option<bool>)
  {
    flag == Some(true)
  }

  /** What `dumpMethodAsProto` reads from a method descriptor. */
  function PartsOf(m: MethodDescriptor): Parts
  {
    Parts(m.name, IsSet(m.clientStreaming), TrimDots(m.inputType), IsSet(m.serverStreaming), TrimDots(m.outputType))
  }

  function Qualifier(streaming: bool): string
  {
    if streaming then "stream " else ""
  }

  /** `rpc Name(<stream >In) returns (<stream >Out){}`. */
  function Render(p: Parts): string
  {
    "rpc " + p.name + "(" + Qualifier(p.clientStreaming) + p.inputType
      + ") returns (" + Qualifier(p.serverStreaming) + p.outputType + "){}"
  }

  /** `dumpMethodAsProto`: builds the signature piece by piece in a buffer. */
  method DumpMethodAsProto(m: MethodDescriptor) returns (s: string)
    ensures s == Render(PartsOf(m))
  {
    var inputType := TrimDots(m.inputType);
    var outputType := TrimDots(m.outputType);
    var buf := "rpc ";
    buf := buf + m.name;
    buf := buf + "(";
    buf := AppendIf(buf, m.clientStreaming.Some? && m.clientStreaming.value == true, "stream ");
    buf := buf + inputType;
    buf := buf + ") returns (";
    buf := AppendIf(buf, m.serverStreaming.Some? && m.serverStreaming.value == true, "stream ");
    buf := buf + outputType;
    ghost var body := buf;
    buf := buf + "){";
    buf := buf + "}";
    ConcatAssociative(body, "){", "}");
    s := buf;
    RenderPieces(PartsOf(m), m.name, inputType, outputType);
  }

  /** The buffer with `suffix` written to it when `cond` holds. */
  method AppendIf(buf: string, cond: bool, suffix: string) returns (r: string)
    ensures r == buf + (if cond then suffix else "")
  {
    r := buf;
    if cond {
      r := r + suffix;
    }
  }

  /** `Render` is the pieces written one after the other. */
  lemma RenderPieces(p: Parts, name: string, inputType: string, outputType: string)
    requires name == p.name && inputType == p.inputType && outputType == p.outputType
    ensures Render(p) == "rpc " + name + "(" + Qualifier(p.clientStreaming) + inputType
      + ") returns (" + Qualifier(p.serverStreaming) + outputType + ("){" + "}")
  {
    assert "){" + "}" == "){}";
  }

  // ---- An inverse of Render: reading the pieces back out of a signature ----

  /** No parenthesis and no space: true of every proto identifier and type name. */
  predicate Plain(t: string)
  {
    forall k :: 0 <= k < |t| ==> t[k] != '(' && t[k] != ')' && t[k] != ' '
  }

  predicate PlainParts(p: Parts)
  {
    Plain(p.name) && Plain(p.inputType) && Plain(p.outputType)
  }

  function DropQualifier(t: string): string
  {
    if StartsWith(t, "stream ") then t[7..] else t
  }

  /** Reads a signature back into its pieces; `None` when it is not one `Render` produces. */
  function ParseSignature(s: string): Option<Parts>
  {
    if |s| < 7 || !StartsWith(s, "rpc ") || s[|s| - 3..] != "){}" then None
    else ParseBody(s[4..|s| - 3])
  }

  /** `Name(...) returns (...)`: the name runs up to the first `(`. */
  function ParseBody(body: string): Option<Parts>
  {
    var i := IndexOfChar(body, '(');
    if i == |body| then None else ParseArguments(body[..i], body[i + 1..])
  }

  /** `<stream >In) returns (...)`: the input type runs up to the first `)`. */
  function ParseArguments(name: string, afterOpen: string): Option<Parts>
  {
    var input := DropQualifier(afterOpen);
    var j := IndexOfChar(input, ')');
    ParseResult(name, StartsWith(afterOpen, "stream "), input[..j], input[j..])
  }

  /** `) returns (<stream >Out)`, the closing `){}` already removed. */
  function ParseResult(name: string, clientStreaming: bool, inputType: string, tail: string): Option<Parts>
  {
    if !StartsWith(tail, ") returns (") then None
    else
      var output := tail[11..];
      Some(Parts(name, clientStreaming, inputType, StartsWith(output, "stream "), DropQualifier(output)))
  }

  /** A plain name followed by something starting with `)` does not start with `stream `. */
  lemma NotQualified(x: string, y: string)
    requires Plain(x) && y != [] && y[0] == ')'
    ensures !StartsWith(x + y, "stream ")
  {
    if |x + y| >= 7 {
      var k := if |x| >= 7 then 6 else |x|;
      assert ')' !in "stream " && "stream "[6] == ' ';
      assert (x + y)[..7][k] != "stream "[k];
    }
  }

  lemma PlainNotQualified(x: string)
    requires Plain(x)
    ensures !StartsWith(x, "stream ")
  {
    if |x| >= 7 {
      assert x[..7][6] != "stream "[6];
    }
  }

  lemma ParseResultRender(name: string, cs: bool, input: string, ss: bool, output: string)
    requires Plain(output)
    ensures ParseResult(name, cs, input, ") returns (" + Qualifier(ss) + output) == Some(Parts(name, cs, input, ss, output))
  {
    var tail := ") returns (" + Qualifier(ss) + output;
    assert tail[..11] == ") returns (";
    assert tail[11..] == Qualifier(ss) + output;
    if ss {
      assert (Qualifier(ss) + output)[7..] == output;
    } else {
      PlainNotQualified(output);
    }
  }

  lemma ParseArgumentsRender(name: string, cs: bool, input: string, tail: string)
    requires Plain(input) && tail != [] && tail[0] == ')'
    ensures ParseArguments(name, Qualifier(cs) + input + tail) == ParseResult(name, cs, input, tail)
  {
    var afterOpen := Qualifier(cs) + input + tail;
    if cs {
      assert afterOpen[7..] == input + tail;
    } else {
      NotQualified(input, tail);
    }
    assert DropQualifier(afterOpen) == input + tail;
    assert input + tail == input + [')'] + tail[1..];
    IndexOfCharAfter(input, ')', tail[1..]);
    assert (input + tail)[..|input|] == input;
    assert (input + tail)[|input|..] == tail;
  }

  lemma ParseBodyRender(name: string, rest: string)
    requires Plain(name)
    ensures ParseBody(name + "(" + rest) == ParseArguments(name, rest)
  {
    IndexOfCharAfter(name, '(', rest);
    assert (name + "(" + rest)[..|name|] == name;
    assert (name + "(" + rest)[|name| + 1..] == rest;
  }

  lemma ParseSignatureRender(body: string)
    ensures ParseSignature("rpc " + body + "){}") == ParseBody(body)
  {
    var s := "rpc " + body + "){}";
    assert s[..4] == "rpc ";
    assert s[|s| - 3..] == "){}";
    assert s[4..|s| - 3] == body;
  }

  /** Reading a rendered signature gives back its pieces. */
  lemma ParseRender(p: Parts)
    requires PlainParts(p)
    ensures ParseSignature(Render(p)) == Some(p)
  {
    var tail := ") returns (" + Qualifier(p.serverStreaming) + p.outputType;
    var rest := Qualifier(p.clientStreaming) + p.inputType + tail;
    var body := p.name + "(" + rest;
    calc {
      ParseSignature(Render(p));
      { assert Render(p) == "rpc " + body + "){}"; }
      ParseSignature("rpc " + body + "){}");
      { ParseSignatureRender(body); }
      ParseBody(body);
      { ParseBodyRender(p.name, rest); }
      ParseArguments(p.name, rest);
      { ParseArgumentsRender(p.name, p.clientStreaming, p.inputType, tail); }
      ParseResult(p.name, p.clientStreaming, p.inputType, tail);
      { ParseResultRender(p.name, p.clientStreaming, p.inputType, p.serverStreaming, p.outputType); }
      Some(p);
    }
  }

  lemma ResultParsed(name: string, cs: bool, input: string, tail: string, p: Parts)
    requires ParseResult(name, cs, input, tail) == Some(p)
    ensures p.name == name && p.clientStreaming == cs && p.inputType == input
    ensures tail == ") returns (" + Qualifier(p.serverStreaming) + p.outputType
  {
    var output := tail[11..];
    assert tail == ") returns (" + output;
    if StartsWith(output, "stream ") {
      assert output == "stream " + output[7..];
    }
  }

  lemma QualifierSplit(t: string)
    ensures t == Qualifier(StartsWith(t, "stream ")) + DropQualifier(t)
  {
  }

  lemma Rejoin(whole: string, q: string, input: string, j: nat, inputType: string, tail: string)
    requires j <= |input| && whole == q + input && inputType == input[..j] && input[j..] == tail
    ensures whole == q + inputType + tail
  {
    assert input == input[..j] + input[j..];
  }

  lemma ArgumentsParsed(name: string, afterOpen: string, p: Parts)
    requires ParseArguments(name, afterOpen) == Some(p)
    ensures p.name == name
    ensures afterOpen == Qualifier(p.clientStreaming) + p.inputType + (") returns (" + Qualifier(p.serverStreaming) + p.outputType)
  {
    var input := DropQualifier(afterOpen);
    var j := IndexOfChar(input, ')');
    var cs := StartsWith(afterOpen, "stream ");
    ResultParsed(name, cs, input[..j], input[j..], p);
    QualifierSplit(afterOpen);
    Rejoin(afterOpen, Qualifier(cs), input, j, p.inputType, ") returns (" + Qualifier(p.serverStreaming) + p.outputType);
  }

  lemma SplitAt(t: string, i: nat, whole: string)
    requires i < |t| && t[i] == '(' && whole == t[..i] + "(" + t[i + 1..]
    ensures t == whole
  {
  }

  lemma BodyParsed(body: string, p: Parts)
    requires ParseBody(body) == Some(p)
    ensures body == p.name + "(" + (Qualifier(p.clientStreaming) + p.inputType + (") returns (" + Qualifier(p.serverStreaming) + p.outputType))
  {
    var i := IndexOfChar(body, '(');
    ArgumentsParsed(body[..i], body[i + 1..], p);
    SplitAt(body, i, body[..i] + "(" + body[i + 1..]);
  }

  /** `Render` with its pieces grouped the way the parser takes them apart. */
  lemma RenderGrouped(p: Parts)
    ensures Render(p) == "rpc " + (p.name + "(" + (Qualifier(p.clientStreaming) + p.inputType
      + (") returns (" + Qualifier(p.serverStreaming) + p.outputType))) + "){}"
  {
  }

  lemma Unframe(s: string)
    requires |s| >= 7 && StartsWith(s, "rpc ") && s[|s| - 3..] == "){}"
    ensures s == "rpc " + s[4..|s| - 3] + "){}"
  {
    assert s == s[..4] + s[4..|s| - 3] + s[|s| - 3..];
  }

  /** A string that parses is exactly the rendering of what it parses to. */
  lemma RenderParse(s: string)
    ensures ParseSignature(s).Some? ==> Render(ParseSignature(s).value) == s
  {
    if ParseSignature(s).Some? {
      var p := ParseSignature(s).value;
      Unframe(s);
      BodyParsed(s[4..|s| - 3], p);
      RenderGrouped(p);
    }
  }

  /** Trimming keeps a name free of parentheses and spaces. */
  lemma TrimDotsPlain(t: string)
    requires Plain(t)
    ensures Plain(TrimDots(t))
  {
    var r := TrimDots(t);
    forall k | 0 <= k < |r|
      ensures r[k] != '(' && r[k] != ')' && r[k] != ' '
    {
      assert r[k] == t[|t| - |r| + k];
    }
  }

  /**
   * For a descriptor with plain names, the signature shows `stream` on the
   * input side exactly when the client streams, on the output side exactly
   * when the server streams (a nil flag reads as false), and the type names
   * with their leading dots removed.
   */
  lemma SignatureDeterminesMethod(m: MethodDescriptor)
    requires Plain(m.name) && Plain(m.inputType) && Plain(m.outputType)
    ensures ParseSignature(Render(PartsOf(m))) == Some(Parts(m.name,
      m.clientStreaming == Some(true), TrimDots(m.inputType),
      m.serverStreaming == Some(true), TrimDots(m.outputType)))
  {
    TrimDotsPlain(m.inputType);
    TrimDotsPlain(m.outputType);
    var p := PartsOf(m);
    ParseRender(p);
  }

  /** Client streaming only: `stream` on the input side alone. */
  lemma ClientStreamingExample()
    ensures Render(PartsOf(MethodDescriptor("Do", ".pkg.Req", ".pkg.Res", Some(true), Some(false))))
         == "rpc Do(stream pkg.Req) returns (pkg.Res){}"
  {
    ExamplePartsOf(Some(true), Some(false));
    // The literal is built up piece by piece: one equation over the whole
    // 44-character string is too costly for the solver.
    var s := "rpc " + "Do" + "(";
    assert s == "rpc Do(";
    s := s + "stream " + "pkg.Req";
    assert s == "rpc Do(stream pkg.Req";
    s := s + ") returns (";
    assert s == "rpc Do(stream pkg.Req) returns (";
    s := s + "" + "pkg.Res";
    assert s == "rpc Do(stream pkg.Req) returns (pkg.Res";
    s := s + "){}";
    assert s == "rpc Do(stream pkg.Req) returns (pkg.Res){}";
  }

  /** Both flags nil: no `stream` qualifier on either side. */
  lemma UnaryExample()
    ensures Render(PartsOf(MethodDescriptor("Do", ".pkg.Req", ".pkg.Res", None, None)))
         == "rpc Do(pkg.Req) returns (pkg.Res){}"
  {
    ExamplePartsOf(None, None);
    var s := "rpc " + "Do" + "(";
    assert s == "rpc Do(";
    s := s + "" + "pkg.Req";
    assert s == "rpc Do(pkg.Req";
    s := s + ") returns (";
    assert s == "rpc Do(pkg.Req) returns (";
    s := s + "" + "pkg.Res";
    assert s == "rpc Do(pkg.Req) returns (pkg.Res";
    s := s + "){}";
    assert s == "rpc Do(pkg.Req) returns (pkg.Res){}";
  }

  lemma ExamplePartsOf(cs: Option<bool>, ss: Option<bool>)
    ensures PartsOf(MethodDescriptor("Do", ".pkg.Req", ".pkg.Res", cs, ss))
         == Parts("Do", cs == Some(true), "pkg.Req", ss == Some(true), "pkg.Res")
  {
    TrimDotsExamples();
  }
}
