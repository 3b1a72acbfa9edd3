/** The two walks over a syntax tree: one collects signatures, the other symbols with their spans. */
module SyntaxWalk {
  import opened ChunkIds
  import opened Chunker
  import Index = IndexStore

  type Language = Index.Language
  type World = Index.World

  /** A syntax node: its kind, byte range, rows and start column, its own text if that is valid, and
      its children, each under a field name or none. */
  datatype Node = Node(
    kind: string,
    from: nat,
    to: nat,
    startRow: nat,
    startColumn: nat,
    endRow: nat,
    text: Option<string>,
    children: seq<Child>)

  datatype Child = Child(field: Option<string>, node: Node)

  datatype Grammar = Bash | C | Cpp | Python | Ruby

  /** The position of the first child under a field name. */
  function FieldAt(node: Node, name: string): (at: Option<nat>)
    ensures at.Some? ==> at.value < |node.children| && node.children[at.value].field == Some(name)
  {
    FieldFrom(node, name, 0)
  }

  function FieldFrom(node: Node, name: string, i: nat): (at: Option<nat>)
    requires i <= |node.children|
    ensures at.Some? ==> at.value < |node.children| && node.children[at.value].field == Some(name)
    decreases |node.children| - i
  {
    if i == |node.children| then None
    else if node.children[i].field == Some(name) then Some(i)
    else FieldFrom(node, name, i + 1)
  }

  /** Which function reads the signature off a node. */
  datatype Reader = NameOnly | PythonDef | CDef | RubyDef

  /** The readers that look further than the name. */
  datatype Readers = Readers(python: Node -> Option<Signature>, c: Node -> Option<Signature>, ruby: Node -> Option<Signature>)
  {
    function Read(reader: Reader, node: Node): Option<Signature> {
      match reader
      case NameOnly => TypeSymbol(node)
      case PythonDef => python(node)
      case CDef => c(node)
      case RubyDef => ruby(node)
    }
  }

  /** `type_symbol`, which `parse_bash_function` repeats. */
  function TypeSymbol(node: Node): Option<Signature> {
    match FieldAt(node, "name")
    case None => None
    case Some(i) =>
      match node.children[i].node.text
      case None => None
      case Some(name) => Some(Signature(name, [], None, node.startRow + 1, node.startColumn))
  }

  /** `span_of` */
  function SpanOf(node: Node, sig: Signature, kind: SymbolKind): Span {
    Span(sig, kind, node.startRow + 1, node.endRow + 1)
  }

  // ---------------------------------------------------------------------------------------
  // What each walk does with a child
  // ---------------------------------------------------------------------------------------

  datatype Rule = Through | Emit(reader: Reader, kind: SymbolKind, body: bool)

  function SpanRule(g: Grammar, kind: string): Rule {
    match g
    case Bash => if kind == "function_definition" then Emit(NameOnly, Function, true) else Through
    case C => if kind == "function_definition" then Emit(CDef, Function, true) else Through
    case Cpp =>
      if kind == "function_definition" then Emit(CDef, Function, true)
      else if kind == "class_specifier" then Emit(NameOnly, Class, true)
      else if kind == "struct_specifier" then Emit(NameOnly, Struct, true)
      else Through
    case Python =>
      if kind == "function_definition" then Emit(PythonDef, Function, true)
      else if kind == "class_definition" then Emit(NameOnly, Class, true)
      else Through
    case Ruby =>
      if kind == "class" then Emit(NameOnly, Class, true)
      else if kind == "module" then Emit(NameOnly, ModuleDecl, true)
      else if kind == "method" || kind == "singleton_method" then Emit(RubyDef, Function, false)
      else Through
  }

  /** A symbol the span walk emits. */
  datatype Found = Found(node: Node, sig: Signature, kind: SymbolKind)

  function FoundAt(r: Readers, node: Node, rule: Rule): seq<Found>
    requires rule.Emit?
  {
    match r.Read(rule.reader, node)
    case None => []
    case Some(sig) => [Found(node, sig, rule.kind)]
  }

  /** The symbols emitted for the children of a node. */
  function SymbolsIn(r: Readers, g: Grammar, node: Node): seq<Found>
    decreases node, |node.children| + 1
  {
    SymbolsUpTo(r, g, node, |node.children|)
  }

  function SymbolsUpTo(r: Readers, g: Grammar, node: Node, n: nat): seq<Found>
    requires n <= |node.children|
    decreases node, n
  {
    if n == 0 then []
    else SymbolsUpTo(r, g, node, n - 1) + SymbolsOf(r, g, node.children[n - 1].node)
  }

  function SymbolsOf(r: Readers, g: Grammar, child: Node): seq<Found>
    decreases child, |child.children| + 2
  {
    var rule := SpanRule(g, child.kind);
    match rule
    case Through => SymbolsIn(r, g, child)
    case Emit(_, _, body) => FoundAt(r, child, rule) + if body then SymbolsInBody(r, g, child) else []
  }

  function SymbolsInBody(r: Readers, g: Grammar, node: Node): seq<Found>
    decreases node, |node.children| + 1
  {
    match FieldAt(node, "body")
    case None => []
    case Some(i) => SymbolsIn(r, g, node.children[i].node)
  }

  function Spans(found: seq<Found>): seq<Span> {
    seq(|found|, i requires 0 <= i < |found| => SpanOf(found[i].node, found[i].sig, found[i].kind))
  }

  function Signatures(spans: seq<Span>): seq<Signature> {
    seq(|spans|, i requires 0 <= i < |spans| => spans[i].sig)
  }

  /** One more child of the span walk, after what was there before. */
  lemma NextChild(r: Readers, g: Grammar, node: Node, i: nat, before: seq<Span>)
    requires i < |node.children|
    ensures before + Spans(SymbolsUpTo(r, g, node, i + 1)) ==
            before + Spans(SymbolsUpTo(r, g, node, i)) + Spans(SymbolsOf(r, g, node.children[i].node))
  {
    SpansConcat(SymbolsUpTo(r, g, node, i), SymbolsOf(r, g, node.children[i].node));
  }

  /** What a child adds: if it is a symbol, its own span when it has a signature and then the spans of
      its body; the spans below it otherwise. */
  lemma ChildSpans(r: Readers, g: Grammar, child: Node, before: seq<Span>)
    ensures before + Spans(SymbolsOf(r, g, child)) ==
            match SpanRule(g, child.kind)
            case Through => before + Spans(SymbolsIn(r, g, child))
            case Emit(reader, kind, body) =>
              WithOwn(r, child, reader, kind, before) + Spans(if body then SymbolsInBody(r, g, child) else [])
  {
    hide SymbolsIn, SymbolsInBody, SpanRule;
    var rule := SpanRule(g, child.kind);
    if rule.Emit? {
      SpansConcat(FoundAt(r, child, rule), if rule.body then SymbolsInBody(r, g, child) else []);
    }
  }

  /** A definition whose body is walked. */
  lemma DefinitionSpans(r: Readers, g: Grammar, child: Node, reader: Reader, kind: SymbolKind, before: seq<Span>)
    requires SpanRule(g, child.kind) == Emit(reader, kind, true)
    ensures before + Spans(SymbolsOf(r, g, child)) ==
            match FieldAt(child, "body")
            case None => WithOwn(r, child, reader, kind, before)
            case Some(i) => WithOwn(r, child, reader, kind, before) + Spans(SymbolsIn(r, g, child.children[i].node))
  {
    hide SymbolsIn, SymbolsOf, Spans, WithOwn;
    ChildSpans(r, g, child, before);
    NothingMore(WithOwn(r, child, reader, kind, before));
  }

  /** A definition whose body is not walked. */
  lemma LeafSpans(r: Readers, g: Grammar, child: Node, reader: Reader, kind: SymbolKind, before: seq<Span>)
    requires SpanRule(g, child.kind) == Emit(reader, kind, false)
    ensures before + Spans(SymbolsOf(r, g, child)) == WithOwn(r, child, reader, kind, before)
  {
    hide SymbolsIn, SymbolsOf, Spans, WithOwn;
    ChildSpans(r, g, child, before);
    NothingMore(WithOwn(r, child, reader, kind, before));
  }

  lemma NothingMore(before: seq<Span>)
    ensures before + Spans([]) == before
  {
  }

  function WithOwn(r: Readers, child: Node, reader: Reader, kind: SymbolKind, before: seq<Span>): seq<Span> {
    match r.Read(reader, child)
    case None => before
    case Some(sig) => before + [SpanOf(child, sig, kind)]
  }

  lemma SpansConcat(a: seq<Found>, b: seq<Found>)
    ensures Spans(a + b) == Spans(a) + Spans(b)
  {
  }

  lemma NoneYet(r: Readers, g: Grammar, node: Node, before: seq<Span>)
    ensures before + Spans(SymbolsUpTo(r, g, node, 0)) == before
    ensures SymbolsIn(r, g, node) == SymbolsUpTo(r, g, node, |node.children|)
  {
  }

  // ---------------------------------------------------------------------------------------
  // The span walks
  // ---------------------------------------------------------------------------------------

  /** `extract_bash_function_spans` */
  method ExtractBashFunctionSpans(r: Readers, node: Node, before: seq<Span>) returns (spans: seq<Span>)
    ensures spans == before + Spans(SymbolsIn(r, Bash, node))
    decreases node
  {
    hide Spans, SymbolsUpTo, SymbolsIn, SymbolsOf, SymbolsInBody, TypeSymbol, FieldFrom;
    spans := before;
    NoneYet(r, Bash, node, before);
    for i := 0 to |node.children|
      invariant spans == before + Spans(SymbolsUpTo(r, Bash, node, i))
    {
      var child := node.children[i].node;
      NextChild(r, Bash, node, i, before);
      if child.kind == "function_definition" {
        DefinitionSpans(r, Bash, child, NameOnly, Function, spans);
        var sig := TypeSymbol(child);
        if sig.Some? {
          spans := spans + [SpanOf(child, sig.value, Function)];
        }
        var body := FieldAt(child, "body");
        if body.Some? {
          spans := ExtractBashFunctionSpans(r, child.children[body.value].node, spans);
        }
      } else {
        ChildSpans(r, Bash, child, spans);
        spans := ExtractBashFunctionSpans(r, child, spans);
      }
    }
  }

  /** `extract_c_function_spans` */
  method ExtractCFunctionSpans(r: Readers, node: Node, before: seq<Span>) returns (spans: seq<Span>)
    ensures spans == before + Spans(SymbolsIn(r, C, node))
    decreases node
  {
    hide Spans, SymbolsUpTo, SymbolsIn, SymbolsOf, SymbolsInBody, TypeSymbol, FieldFrom;
    spans := before;
    NoneYet(r, C, node, before);
    for i := 0 to |node.children|
      invariant spans == before + Spans(SymbolsUpTo(r, C, node, i))
    {
      var child := node.children[i].node;
      NextChild(r, C, node, i, before);
      if child.kind == "function_definition" {
        DefinitionSpans(r, C, child, CDef, Function, spans);
        var sig := r.c(child);
        if sig.Some? {
          spans := spans + [SpanOf(child, sig.value, Function)];
        }
        var body := FieldAt(child, "body");
        if body.Some? {
          spans := ExtractCFunctionSpans(r, child.children[body.value].node, spans);
        }
      } else {
        ChildSpans(r, C, child, spans);
        spans := ExtractCFunctionSpans(r, child, spans);
      }
    }
  }

  /** `extract_cpp_function_spans` */
  method ExtractCppFunctionSpans(r: Readers, node: Node, before: seq<Span>) returns (spans: seq<Span>)
    ensures spans == before + Spans(SymbolsIn(r, Cpp, node))
    decreases node
  {
    hide Spans, SymbolsUpTo, SymbolsIn, SymbolsOf, SymbolsInBody, TypeSymbol, FieldFrom;
    spans := before;
    NoneYet(r, Cpp, node, before);
    for i := 0 to |node.children|
      invariant spans == before + Spans(SymbolsUpTo(r, Cpp, node, i))
    {
      var child := node.children[i].node;
      NextChild(r, Cpp, node, i, before);
      if child.kind == "function_definition" {
        DefinitionSpans(r, Cpp, child, CDef, Function, spans);
        var sig := r.c(child);
        if sig.Some? {
          spans := spans + [SpanOf(child, sig.value, Function)];
        }
        var body := FieldAt(child, "body");
        if body.Some? {
          spans := ExtractCppFunctionSpans(r, child.children[body.value].node, spans);
        }
      } else if child.kind == "class_specifier" {
        DefinitionSpans(r, Cpp, child, NameOnly, Class, spans);
        var sig := TypeSymbol(child);
        if sig.Some? {
          spans := spans + [SpanOf(child, sig.value, Class)];
        }
        var body := FieldAt(child, "body");
        if body.Some? {
          spans := ExtractCppFunctionSpans(r, child.children[body.value].node, spans);
        }
      } else if child.kind == "struct_specifier" {
        DefinitionSpans(r, Cpp, child, NameOnly, Struct, spans);
        var sig := TypeSymbol(child);
        if sig.Some? {
          spans := spans + [SpanOf(child, sig.value, Struct)];
        }
        var body := FieldAt(child, "body");
        if body.Some? {
          spans := ExtractCppFunctionSpans(r, child.children[body.value].node, spans);
        }
      } else {
        ChildSpans(r, Cpp, child, spans);
        spans := ExtractCppFunctionSpans(r, child, spans);
      }
    }
  }

  /** `extract_python_function_spans` */
  method ExtractPythonFunctionSpans(r: Readers, node: Node, before: seq<Span>) returns (spans: seq<Span>)
    ensures spans == before + Spans(SymbolsIn(r, Python, node))
    decreases node
  {
    hide Spans, SymbolsUpTo, SymbolsIn, SymbolsOf, SymbolsInBody, TypeSymbol, FieldFrom;
    spans := before;
    NoneYet(r, Python, node, before);
    for i := 0 to |node.children|
      invariant spans == before + Spans(SymbolsUpTo(r, Python, node, i))
    {
      var child := node.children[i].node;
      NextChild(r, Python, node, i, before);
      if child.kind == "function_definition" {
        DefinitionSpans(r, Python, child, PythonDef, Function, spans);
        var sig := r.python(child);
        if sig.Some? {
          spans := spans + [SpanOf(child, sig.value, Function)];
        }
        var body := FieldAt(child, "body");
        if body.Some? {
          spans := ExtractPythonFunctionSpans(r, child.children[body.value].node, spans);
        }
      } else if child.kind == "class_definition" {
        DefinitionSpans(r, Python, child, NameOnly, Class, spans);
        var sig := TypeSymbol(child);
        if sig.Some? {
          spans := spans + [SpanOf(child, sig.value, Class)];
        }
        var body := FieldAt(child, "body");
        if body.Some? {
          spans := ExtractPythonFunctionSpans(r, child.children[body.value].node, spans);
        }
      } else {
        ChildSpans(r, Python, child, spans);
        spans := ExtractPythonFunctionSpans(r, child, spans);
      }
    }
  }

  /** `extract_ruby_function_spans` */
  method ExtractRubyFunctionSpans(r: Readers, node: Node, before: seq<Span>) returns (spans: seq<Span>)
    ensures spans == before + Spans(SymbolsIn(r, Ruby, node))
    decreases node
  {
    hide Spans, SymbolsUpTo, SymbolsIn, SymbolsOf, SymbolsInBody, TypeSymbol, FieldFrom;
    spans := before;
    NoneYet(r, Ruby, node, before);
    for i := 0 to |node.children|
      invariant spans == before + Spans(SymbolsUpTo(r, Ruby, node, i))
    {
      var child := node.children[i].node;
      NextChild(r, Ruby, node, i, before);
      if child.kind == "class" {
        DefinitionSpans(r, Ruby, child, NameOnly, Class, spans);
        var sig := TypeSymbol(child);
        if sig.Some? {
          spans := spans + [SpanOf(child, sig.value, Class)];
        }
        var body := FieldAt(child, "body");
        if body.Some? {
          spans := ExtractRubyFunctionSpans(r, child.children[body.value].node, spans);
        }
      } else if child.kind == "module" {
        DefinitionSpans(r, Ruby, child, NameOnly, ModuleDecl, spans);
        var sig := TypeSymbol(child);
        if sig.Some? {
          spans := spans + [SpanOf(child, sig.value, ModuleDecl)];
        }
        var body := FieldAt(child, "body");
        if body.Some? {
          spans := ExtractRubyFunctionSpans(r, child.children[body.value].node, spans);
        }
      } else if child.kind == "method" {
        LeafSpans(r, Ruby, child, RubyDef, Function, spans);
        var sig := r.ruby(child);
        if sig.Some? {
          spans := spans + [SpanOf(child, sig.value, Function)];
        }
      } else if child.kind == "singleton_method" {
        LeafSpans(r, Ruby, child, RubyDef, Function, spans);
        var sig := r.ruby(child);
        if sig.Some? {
          spans := spans + [SpanOf(child, sig.value, Function)];
        }
      } else {
        ChildSpans(r, Ruby, child, spans);
        spans := ExtractRubyFunctionSpans(r, child, spans);
      }
    }
  }

  // ---------------------------------------------------------------------------------------
  // The plain walks
  // ---------------------------------------------------------------------------------------

  datatype PlainRule = Pass | Take(reader: Reader, body: bool) | BodyOnly

  function RuleOf(g: Grammar, kind: string): PlainRule {
    match g
    case Bash => if kind == "function_definition" then Take(NameOnly, true) else Pass
    case C => if kind == "function_definition" then Take(CDef, true) else Pass
    case Cpp =>
      if kind == "function_definition" then Take(CDef, true)
      else if kind == "class_specifier" || kind == "struct_specifier" then Take(NameOnly, true)
      else Pass
    case Python =>
      if kind == "function_definition" then Take(PythonDef, true)
      else if kind == "class_definition" then BodyOnly
      else Pass
    case Ruby =>
      if kind == "class" || kind == "module" then Take(NameOnly, true)
      else if kind == "method" || kind == "singleton_method" then Take(RubyDef, false)
      else Pass
  }

  function SigsIn(r: Readers, g: Grammar, node: Node): seq<Signature>
    decreases node, |node.children| + 1
  {
    SigsUpTo(r, g, node, |node.children|)
  }

  function SigsUpTo(r: Readers, g: Grammar, node: Node, n: nat): seq<Signature>
    requires n <= |node.children|
    decreases node, n
  {
    if n == 0 then []
    else SigsUpTo(r, g, node, n - 1) + SigsOf(r, g, node.children[n - 1].node)
  }

  function SigsOf(r: Readers, g: Grammar, child: Node): seq<Signature>
    decreases child, |child.children| + 2
  {
    match RuleOf(g, child.kind)
    case Pass => SigsIn(r, g, child)
    case Take(reader, body) => SigAt(r, child, reader) + if body then SigsInBody(r, g, child) else []
    case BodyOnly => SigsInBody(r, g, child)
  }

  function SigAt(r: Readers, node: Node, reader: Reader): seq<Signature> {
    match r.Read(reader, node)
    case None => []
    case Some(sig) => [sig]
  }

  function SigsInBody(r: Readers, g: Grammar, node: Node): seq<Signature>
    decreases node, |node.children| + 1
  {
    match FieldAt(node, "body")
    case None => []
    case Some(i) => SigsIn(r, g, node.children[i].node)
  }

  /** One more child of the plain walk, after what was there before. */
  lemma NextSigs(r: Readers, g: Grammar, node: Node, i: nat, before: seq<Signature>)
    requires i < |node.children|
    ensures before + SigsUpTo(r, g, node, i + 1) ==
            before + SigsUpTo(r, g, node, i) + SigsOf(r, g, node.children[i].node)
  {
  }

  lemma ChildSigs(r: Readers, g: Grammar, child: Node, before: seq<Signature>)
    ensures before + SigsOf(r, g, child) ==
            match RuleOf(g, child.kind)
            case Pass => before + SigsIn(r, g, child)
            case Take(reader, body) => before + SigAt(r, child, reader) + if body then SigsInBody(r, g, child) else []
            case BodyOnly => before + SigsInBody(r, g, child)
  {
  }

  /** A definition that is taken, and its body walked. */
  lemma DefinitionSigs(r: Readers, g: Grammar, child: Node, reader: Reader, before: seq<Signature>)
    requires RuleOf(g, child.kind) == Take(reader, true)
    ensures before + SigsOf(r, g, child) ==
            match FieldAt(child, "body")
            case None => before + SigAt(r, child, reader)
            case Some(i) => before + SigAt(r, child, reader) + SigsIn(r, g, child.children[i].node)
  {
    hide SigsIn, SigsOf, SigAt;
    ChildSigs(r, g, child, before);
    NoMoreSigs(before + SigAt(r, child, reader));
  }

  lemma LeafSigs(r: Readers, g: Grammar, child: Node, reader: Reader, before: seq<Signature>)
    requires RuleOf(g, child.kind) == Take(reader, false)
    ensures before + SigsOf(r, g, child) == before + SigAt(r, child, reader)
  {
    hide SigsIn, SigsOf, SigAt;
    ChildSigs(r, g, child, before);
    NoMoreSigs(before + SigAt(r, child, reader));
  }

  lemma BodySigs(r: Readers, g: Grammar, child: Node, before: seq<Signature>)
    requires RuleOf(g, child.kind) == BodyOnly
    ensures before + SigsOf(r, g, child) ==
            match FieldAt(child, "body")
            case None => before
            case Some(i) => before + SigsIn(r, g, child.children[i].node)
  {
    hide SigsIn, SigsOf;
    ChildSigs(r, g, child, before);
    NoMoreSigs(before);
  }

  lemma NoMoreSigs(before: seq<Signature>)
    ensures before + [] == before
  {
  }

  lemma NoSigsYet(r: Readers, g: Grammar, node: Node, before: seq<Signature>)
    ensures before + SigsUpTo(r, g, node, 0) == before
    ensures SigsIn(r, g, node) == SigsUpTo(r, g, node, |node.children|)
  {
  }

  /** `extract_bash_functions` */
  method ExtractBashFunctions(r: Readers, node: Node, before: seq<Signature>) returns (signatures: seq<Signature>)
    ensures signatures == before + SigsIn(r, Bash, node)
    decreases node
  {
    hide SigsUpTo, SigsIn, SigsOf, SigsInBody, TypeSymbol, FieldFrom;
    signatures := before;
    NoSigsYet(r, Bash, node, before);
    for i := 0 to |node.children|
      invariant signatures == before + SigsUpTo(r, Bash, node, i)
    {
      var child := node.children[i].node;
      NextSigs(r, Bash, node, i, before);
      if child.kind == "function_definition" {
        DefinitionSigs(r, Bash, child, NameOnly, signatures);
        NoMoreSigs(signatures);
        var sig := TypeSymbol(child);
        if sig.Some? {
          signatures := signatures + [sig.value];
        }
        var body := FieldAt(child, "body");
        if body.Some? {
          signatures := ExtractBashFunctions(r, child.children[body.value].node, signatures);
        }
      } else {
        ChildSigs(r, Bash, child, signatures);
        signatures := ExtractBashFunctions(r, child, signatures);
      }
    }
  }

  /** `extract_c_functions` */
  method ExtractCFunctions(r: Readers, node: Node, before: seq<Signature>) returns (signatures: seq<Signature>)
    ensures signatures == before + SigsIn(r, C, node)
    decreases node
  {
    hide SigsUpTo, SigsIn, SigsOf, SigsInBody, TypeSymbol, FieldFrom;
    signatures := before;
    NoSigsYet(r, C, node, before);
    for i := 0 to |node.children|
      invariant signatures == before + SigsUpTo(r, C, node, i)
    {
      var child := node.children[i].node;
      NextSigs(r, C, node, i, before);
      if child.kind == "function_definition" {
        DefinitionSigs(r, C, child, CDef, signatures);
        NoMoreSigs(signatures);
        var sig := r.c(child);
        if sig.Some? {
          signatures := signatures + [sig.value];
        }
        var body := FieldAt(child, "body");
        if body.Some? {
          signatures := ExtractCFunctions(r, child.children[body.value].node, signatures);
        }
      } else {
        ChildSigs(r, C, child, signatures);
        signatures := ExtractCFunctions(r, child, signatures);
      }
    }
  }

  /** `extract_cpp_functions` */
  method ExtractCppFunctions(r: Readers, node: Node, before: seq<Signature>) returns (signatures: seq<Signature>)
    ensures signatures == before + SigsIn(r, Cpp, node)
    decreases node
  {
    hide SigsUpTo, SigsIn, SigsOf, SigsInBody, TypeSymbol, FieldFrom;
    signatures := before;
    NoSigsYet(r, Cpp, node, before);
    for i := 0 to |node.children|
      invariant signatures == before + SigsUpTo(r, Cpp, node, i)
    {
      var child := node.children[i].node;
      NextSigs(r, Cpp, node, i, before);
      if child.kind == "function_definition" {
        DefinitionSigs(r, Cpp, child, CDef, signatures);
        NoMoreSigs(signatures);
        var sig := r.c(child);
        if sig.Some? {
          signatures := signatures + [sig.value];
        }
        var body := FieldAt(child, "body");
        if body.Some? {
          signatures := ExtractCppFunctions(r, child.children[body.value].node, signatures);
        }
      } else if child.kind == "class_specifier" || child.kind == "struct_specifier" {
        DefinitionSigs(r, Cpp, child, NameOnly, signatures);
        NoMoreSigs(signatures);
        var sig := TypeSymbol(child);
        if sig.Some? {
          signatures := signatures + [sig.value];
        }
        var body := FieldAt(child, "body");
        if body.Some? {
          signatures := ExtractCppFunctions(r, child.children[body.value].node, signatures);
        }
      } else {
        ChildSigs(r, Cpp, child, signatures);
        signatures := ExtractCppFunctions(r, child, signatures);
      }
    }
  }

  /** `extract_python_functions` */
  method ExtractPythonFunctions(r: Readers, node: Node, before: seq<Signature>) returns (signatures: seq<Signature>)
    ensures signatures == before + SigsIn(r, Python, node)
    decreases node
  {
    hide SigsUpTo, SigsIn, SigsOf, SigsInBody, TypeSymbol, FieldFrom;
    signatures := before;
    NoSigsYet(r, Python, node, before);
    for i := 0 to |node.children|
      invariant signatures == before + SigsUpTo(r, Python, node, i)
    {
      var child := node.children[i].node;
      NextSigs(r, Python, node, i, before);
      if child.kind == "function_definition" {
        DefinitionSigs(r, Python, child, PythonDef, signatures);
        NoMoreSigs(signatures);
        var sig := r.python(child);
        if sig.Some? {
          signatures := signatures + [sig.value];
        }
        var body := FieldAt(child, "body");
        if body.Some? {
          signatures := ExtractPythonFunctions(r, child.children[body.value].node, signatures);
        }
      } else if child.kind == "class_definition" {
        BodySigs(r, Python, child, signatures);
        var body := FieldAt(child, "body");
        if body.Some? {
          signatures := ExtractPythonFunctions(r, child.children[body.value].node, signatures);
        }
      } else {
        ChildSigs(r, Python, child, signatures);
        signatures := ExtractPythonFunctions(r, child, signatures);
      }
    }
  }

  /** `extract_ruby_functions` */
  method ExtractRubyFunctions(r: Readers, node: Node, before: seq<Signature>) returns (signatures: seq<Signature>)
    ensures signatures == before + SigsIn(r, Ruby, node)
    decreases node
  {
    hide SigsUpTo, SigsIn, SigsOf, SigsInBody, TypeSymbol, FieldFrom;
    signatures := before;
    NoSigsYet(r, Ruby, node, before);
    for i := 0 to |node.children|
      invariant signatures == before + SigsUpTo(r, Ruby, node, i)
    {
      var child := node.children[i].node;
      NextSigs(r, Ruby, node, i, before);
      if child.kind == "class" || child.kind == "module" {
        DefinitionSigs(r, Ruby, child, NameOnly, signatures);
        NoMoreSigs(signatures);
        var sig := TypeSymbol(child);
        if sig.Some? {
          signatures := signatures + [sig.value];
        }
        var body := FieldAt(child, "body");
        if body.Some? {
          signatures := ExtractRubyFunctions(r, child.children[body.value].node, signatures);
        }
      } else if child.kind == "method" || child.kind == "singleton_method" {
        LeafSigs(r, Ruby, child, RubyDef, signatures);
        NoMoreSigs(signatures);
        var sig := r.ruby(child);
        if sig.Some? {
          signatures := signatures + [sig.value];
        }
      } else {
        ChildSigs(r, Ruby, child, signatures);
        signatures := ExtractRubyFunctions(r, child, signatures);
      }
    }
  }

  // ---------------------------------------------------------------------------------------
  // The walks agree
  // ---------------------------------------------------------------------------------------

  /** Whether the plain walk reports such a symbol: of Python's it reports the functions only. */
  predicate Plain(g: Grammar, kind: SymbolKind) {
    g.Python? ==> kind == Function
  }

  /** The signatures of the spans the plain walk reports too. */
  function PlainSignatures(g: Grammar, spans: seq<Span>): seq<Signature> {
    if spans == [] then []
    else
      var n := |spans| - 1;
      PlainSignatures(g, spans[..n]) + if Plain(g, spans[n].kind) then [spans[n].sig] else []
  }

  lemma {:induction false} PlainSignaturesConcat(g: Grammar, a: seq<Span>, b: seq<Span>)
    ensures PlainSignatures(g, a + b) == PlainSignatures(g, a) + PlainSignatures(g, b)
  {
    if b == [] {
      assert a + b == a;
    } else {
      var n := |b| - 1;
      PlainSignaturesConcat(g, a, b[..n]);
      assert (a + b)[..|a| + n] == a + b[..n];
    }
  }

  function PlainOf(g: Grammar, found: seq<Found>): seq<Signature> {
    PlainSignatures(g, Spans(found))
  }

  lemma PlainOfConcat(g: Grammar, a: seq<Found>, b: seq<Found>)
    ensures PlainOf(g, a + b) == PlainOf(g, a) + PlainOf(g, b)
  {
    SpansConcat(a, b);
    PlainSignaturesConcat(g, Spans(a), Spans(b));
  }

  lemma PlainOfNone(g: Grammar)
    ensures PlainOf(g, []) == []
  {
  }

  lemma PlainOfOwn(r: Readers, g: Grammar, child: Node)
    requires SpanRule(g, child.kind).Emit?
    ensures var rule := SpanRule(g, child.kind);
            PlainOf(g, FoundAt(r, child, rule)) ==
            if Plain(g, rule.kind) then SigAt(r, child, rule.reader) else []
  {
    var rule := SpanRule(g, child.kind);
    if r.Read(rule.reader, child).Some? {
      var spans := Spans(FoundAt(r, child, rule));
      assert spans[..0] == [] && PlainSignatures(g, spans[..0]) == [];
    }
  }

  lemma {:induction false} AgreeUpTo(r: Readers, g: Grammar, node: Node, n: nat)
    requires n <= |node.children|
    ensures SigsUpTo(r, g, node, n) == PlainOf(g, SymbolsUpTo(r, g, node, n))
    decreases node, n
  {
    hide PlainOf, SymbolsOf, SigsOf;
    if n == 0 {
      PlainOfNone(g);
    } else {
      AgreeUpTo(r, g, node, n - 1);
      AgreeOf(r, g, node.children[n - 1].node);
      PlainOfConcat(g, SymbolsUpTo(r, g, node, n - 1), SymbolsOf(r, g, node.children[n - 1].node));
    }
  }

  lemma {:induction false} AgreeOf(r: Readers, g: Grammar, child: Node)
    ensures SigsOf(r, g, child) == PlainOf(g, SymbolsOf(r, g, child))
    decreases child, |child.children| + 2
  {
    hide PlainOf, SymbolsUpTo, SigsUpTo;
    var rule := SpanRule(g, child.kind);
    AgreeUpTo(r, g, child, |child.children|);
    AgreeInBody(r, g, child);
    PlainOfNone(g);
    if rule.Emit? {
      PlainOfOwn(r, g, child);
      PlainOfConcat(g, FoundAt(r, child, rule), if rule.body then SymbolsInBody(r, g, child) else []);
    }
  }

  lemma {:induction false} AgreeInBody(r: Readers, g: Grammar, node: Node)
    ensures SigsInBody(r, g, node) == PlainOf(g, SymbolsInBody(r, g, node))
    decreases node, |node.children| + 1
  {
    hide PlainOf, SymbolsUpTo, SigsUpTo;
    var at := FieldAt(node, "body");
    if at.Some? {
      var body := node.children[at.value].node;
      AgreeUpTo(r, g, body, |body.children|);
    } else {
      PlainOfNone(g);
    }
  }

  lemma {:induction false} PlainIsAll(g: Grammar, spans: seq<Span>)
    requires !g.Python?
    ensures PlainSignatures(g, spans) == Signatures(spans)
  {
    if spans != [] {
      PlainIsAll(g, spans[..|spans| - 1]);
    }
  }

  /** Where the plain signatures come from. */
  lemma {:induction false} PlainPositions(g: Grammar, spans: seq<Span>) returns (at: seq<nat>)
    ensures |at| == |PlainSignatures(g, spans)|
    ensures forall j, k :: 0 <= j < k < |at| ==> at[j] < at[k]
    ensures forall j :: 0 <= j < |at| ==> at[j] < |spans| && PlainSignatures(g, spans)[j] == spans[at[j]].sig
    ensures forall i: nat :: i in at <==> i < |spans| && (g.Python? ==> spans[i].kind == Function)
  {
    at := [];
    if spans != [] {
      var n := |spans| - 1;
      var before := PlainPositions(g, spans[..n]);
      hide PlainSignatures;
      PlainSignaturesLast(g, spans);
      if Plain(g, spans[n].kind) {
        at := before + [n];
        assert forall i: nat :: i in at <==> i in before || i == n;
      } else {
        at := before;
      }
    }
  }

  lemma PlainSignaturesLast(g: Grammar, spans: seq<Span>)
    requires spans != []
    ensures var n := |spans| - 1;
            PlainSignatures(g, spans) ==
            PlainSignatures(g, spans[..n]) + if Plain(g, spans[n].kind) then [spans[n].sig] else []
  {
  }

  /** On every tree the plain walk reports the signatures of the span walk in the same order: for Bash, C, C++
      and Ruby all of them, for Python those at the places of its functions. */
  lemma WalksAgree(r: Readers, g: Grammar, node: Node) returns (at: seq<nat>)
    ensures var spans, sigs := Spans(SymbolsIn(r, g, node)), SigsIn(r, g, node);
            && |at| == |sigs|
            && (forall j, k :: 0 <= j < k < |at| ==> at[j] < at[k])
            && (forall j :: 0 <= j < |at| ==> at[j] < |spans| && sigs[j] == spans[at[j]].sig)
            && (forall i: nat :: i in at <==> i < |spans| && (g.Python? ==> spans[i].kind == Function))
    ensures !g.Python? ==> SigsIn(r, g, node) == Signatures(Spans(SymbolsIn(r, g, node)))
  {
    AgreeUpTo(r, g, node, |node.children|);
    at := PlainPositions(g, Spans(SymbolsIn(r, g, node)));
    if !g.Python? {
      PlainIsAll(g, Spans(SymbolsIn(r, g, node)));
    }
  }

  // ---------------------------------------------------------------------------------------
  // Which nodes are symbols
  // ---------------------------------------------------------------------------------------

  /** The kinds of nodes that define a symbol. */
  predicate Defines(g: Grammar, kind: string) {
    match g
    case Bash => kind == "function_definition"
    case C => kind == "function_definition"
    case Cpp => kind in {"function_definition", "class_specifier", "struct_specifier"}
    case Python => kind in {"function_definition", "class_definition"}
    case Ruby => kind in {"class", "module", "method", "singleton_method"}
  }

  /** Child `i` is the first under this field name. */
  predicate IsField(node: Node, i: nat, name: string) {
    && i < |node.children| && node.children[i].field == Some(name)
    && forall j :: 0 <= j < i ==> node.children[j].field != Some(name)
  }

  /** A signature that is a name alone: the text of the node's `name`, at the place of the node. */
  predicate NamedAt(node: Node, i: nat, sig: Signature) {
    && IsField(node, i, "name") && node.children[i].node.text == Some(sig.name)
    && sig.parameters == [] && sig.returnType.None?
    && sig.line == node.startRow + 1 && sig.column == node.startColumn
  }

  ghost predicate HasName(node: Node, sig: Signature) {
    exists i :: NamedAt(node, i, sig)
  }

  /** Of which kind of node a span is, and how its signature is read: functions by the reader of their language
      (for Bash the name alone), types by their name. */
  ghost predicate IsSymbol(r: Readers, g: Grammar, node: Node, sig: Signature, kind: SymbolKind) {
    match g
    case Bash => node.kind == "function_definition" && kind == Function && HasName(node, sig)
    case C => node.kind == "function_definition" && kind == Function && r.c(node) == Some(sig)
    case Cpp =>
      || (node.kind == "function_definition" && kind == Function && r.c(node) == Some(sig))
      || (node.kind == "class_specifier" && kind == Class && HasName(node, sig))
      || (node.kind == "struct_specifier" && kind == Struct && HasName(node, sig))
    case Python =>
      || (node.kind == "function_definition" && kind == Function && r.python(node) == Some(sig))
      || (node.kind == "class_definition" && kind == Class && HasName(node, sig))
    case Ruby =>
      || (node.kind == "class" && kind == Class && HasName(node, sig))
      || (node.kind == "module" && kind == ModuleDecl && HasName(node, sig))
      || ((node.kind == "method" || node.kind == "singleton_method") && kind == Function && r.ruby(node) == Some(sig))
  }

  /** The span covers the rows of the node, counted from 1. */
  ghost predicate IsSpanOf(r: Readers, g: Grammar, node: Node, span: Span) {
    && IsSymbol(r, g, node, span.sig, span.kind)
    && span.start == node.startRow + 1 && span.end == node.endRow + 1
  }

  /** The walk looks at `target`: it is a child of `node`, or it is looked at below a child, which for a
      definition means below its body, and for a Ruby method not at all. */
  ghost predicate Visits(g: Grammar, node: Node, target: Node)
    decreases node, 0
  {
    exists i :: 0 <= i < |node.children| && (node.children[i].node == target || VisitsBelow(g, node.children[i].node, target))
  }

  ghost predicate VisitsBelow(g: Grammar, child: Node, target: Node)
    decreases child, 1
  {
    if !Defines(g, child.kind) then Visits(g, child, target)
    else
      && child.kind != "method" && child.kind != "singleton_method"
      && exists b: nat :: IsField(child, b, "body") && Visits(g, child.children[b].node, target)
  }

  lemma FieldAtIsFirst(node: Node, name: string, i: nat)
    ensures FieldAt(node, name) == Some(i) <==> IsField(node, i, name)
  {
    FieldFromIsFirst(node, name, 0, i);
  }

  lemma {:induction false} FieldFromIsFirst(node: Node, name: string, k: nat, i: nat)
    requires k <= |node.children| && forall j :: 0 <= j < k ==> node.children[j].field != Some(name)
    ensures FieldFrom(node, name, k) == Some(i) <==> IsField(node, i, name)
    decreases |node.children| - k
  {
    if k < |node.children| && node.children[k].field != Some(name) {
      FieldFromIsFirst(node, name, k + 1, i);
    }
  }

  lemma TypeSymbolIsName(node: Node, sig: Signature)
    ensures TypeSymbol(node) == Some(sig) <==> HasName(node, sig)
  {
    if at: nat :| NamedAt(node, at, sig) {
      FieldAtIsFirst(node, "name", at);
    }
    if TypeSymbol(node) == Some(sig) {
      var at := FieldAt(node, "name").value;
      FieldAtIsFirst(node, "name", at);
      assert NamedAt(node, at, sig);
    }
  }

  /** The rules are the table. */
  lemma RuleIsTable(r: Readers, g: Grammar, node: Node, sig: Signature, kind: SymbolKind)
    ensures SpanRule(g, node.kind).Emit? <==> Defines(g, node.kind)
    ensures SpanRule(g, node.kind).Emit? ==>
              (SpanRule(g, node.kind).body <==> node.kind != "method" && node.kind != "singleton_method")
    ensures IsSymbol(r, g, node, sig, kind) <==>
            && SpanRule(g, node.kind).Emit? && SpanRule(g, node.kind).kind == kind
            && r.Read(SpanRule(g, node.kind).reader, node) == Some(sig)
  {
    hide TypeSymbol, HasName;
    TypeSymbolIsName(node, sig);
  }

  lemma {:induction false} ChildIsFound(r: Readers, g: Grammar, node: Node, n: nat, i: nat, f: Found)
    requires i < n <= |node.children| && f in SymbolsOf(r, g, node.children[i].node)
    ensures f in SymbolsUpTo(r, g, node, n)
  {
    hide SymbolsOf;
    if i < n - 1 {
      ChildIsFound(r, g, node, n - 1, i, f);
    }
  }

  lemma {:induction false} FoundInChild(r: Readers, g: Grammar, node: Node, n: nat, f: Found) returns (i: nat)
    requires n <= |node.children| && f in SymbolsUpTo(r, g, node, n)
    ensures i < n && f in SymbolsOf(r, g, node.children[i].node)
  {
    hide SymbolsOf;
    if f in SymbolsOf(r, g, node.children[n - 1].node) {
      i := n - 1;
    } else {
      i := FoundInChild(r, g, node, n - 1, f);
    }
  }

  /** What a child contributes: itself if it is a symbol, and what is found below it. */
  lemma FoundOf(r: Readers, g: Grammar, child: Node, f: Found)
    ensures f in SymbolsOf(r, g, child) <==>
            || (f.node == child && IsSymbol(r, g, child, f.sig, f.kind))
            || (!Defines(g, child.kind) && f in SymbolsIn(r, g, child))
            || (Defines(g, child.kind) && child.kind != "method" && child.kind != "singleton_method"
                && f in SymbolsInBody(r, g, child))
  {
    hide SymbolsIn, SymbolsInBody, SpanRule, IsSymbol, Defines, Readers.Read;
    RuleIsTable(r, g, child, f.sig, f.kind);
  }

  lemma FoundInBody(r: Readers, g: Grammar, child: Node, f: Found)
    ensures f in SymbolsInBody(r, g, child) <==>
            exists b: nat :: IsField(child, b, "body") && f in SymbolsIn(r, g, child.children[b].node)
  {
    hide SymbolsIn;
    if b: nat :| IsField(child, b, "body") && f in SymbolsIn(r, g, child.children[b].node) {
      FieldAtIsFirst(child, "body", b);
    }
    var at := FieldAt(child, "body");
    if at.Some? {
      FieldAtIsFirst(child, "body", at.value);
      assert IsField(child, at.value, "body");
    }
  }

  /** The walk emits a node exactly when it looks at it and the node is a symbol. */
  lemma {:induction false} FoundIffVisited(r: Readers, g: Grammar, node: Node, f: Found)
    ensures f in SymbolsIn(r, g, node) <==> Visits(g, node, f.node) && IsSymbol(r, g, f.node, f.sig, f.kind)
    decreases node, 0
  {
    hide SymbolsOf, SymbolsUpTo, IsSymbol, VisitsBelow;
    var n := |node.children|;
    if f in SymbolsIn(r, g, node) {
      var i := FoundInChild(r, g, node, n, f);
      ChildIffVisited(r, g, node.children[i].node, f);
    }
    if Visits(g, node, f.node) && IsSymbol(r, g, f.node, f.sig, f.kind) {
      var i :| 0 <= i < n && (node.children[i].node == f.node || VisitsBelow(g, node.children[i].node, f.node));
      ChildIffVisited(r, g, node.children[i].node, f);
      ChildIsFound(r, g, node, n, i, f);
    }
  }

  lemma {:induction false} ChildIffVisited(r: Readers, g: Grammar, child: Node, f: Found)
    ensures f in SymbolsOf(r, g, child) <==>
            (child == f.node || VisitsBelow(g, child, f.node)) && IsSymbol(r, g, f.node, f.sig, f.kind)
    decreases child, 1
  {
    hide SymbolsOf, SymbolsIn, SymbolsInBody, IsSymbol, Visits, Defines;
    FoundOf(r, g, child, f);
    if !Defines(g, child.kind) {
      FoundIffVisited(r, g, child, f);
      OnlyDefinitionsAreSymbols(r, g, child, f.sig, f.kind);
    } else {
      FoundInBody(r, g, child, f);
      forall b: nat | IsField(child, b, "body")
        ensures f in SymbolsIn(r, g, child.children[b].node) <==>
                Visits(g, child.children[b].node, f.node) && IsSymbol(r, g, f.node, f.sig, f.kind)
      {
        FoundIffVisited(r, g, child.children[b].node, f);
      }
    }
  }

  lemma OnlyDefinitionsAreSymbols(r: Readers, g: Grammar, node: Node, sig: Signature, kind: SymbolKind)
    ensures IsSymbol(r, g, node, sig, kind) ==> Defines(g, node.kind)
  {
    hide HasName;
  }

  ghost predicate SpanVisited(r: Readers, g: Grammar, node: Node, span: Span) {
    exists target :: Visits(g, node, target) && IsSpanOf(r, g, target, span)
  }

  /** Exactly the nodes that the walk looks at and that are symbols have spans, with their own rows. */
  lemma SpansAreSymbols(r: Readers, g: Grammar, node: Node, span: Span)
    ensures span in Spans(SymbolsIn(r, g, node)) <==> SpanVisited(r, g, node, span)
  {
    hide SymbolsIn, Visits, IsSymbol;
    var found := SymbolsIn(r, g, node);
    if i: nat :| i < |found| && Spans(found)[i] == span {
      FoundIffVisited(r, g, node, found[i]);
      assert IsSpanOf(r, g, found[i].node, span);
    }
    if target :| Visits(g, node, target) && IsSpanOf(r, g, target, span) {
      var f := Found(target, span.sig, span.kind);
      FoundIffVisited(r, g, node, f);
      var i :| 0 <= i < |found| && found[i] == f;
      assert Spans(found)[i] == span;
    }
  }

  // ---------------------------------------------------------------------------------------
  // Order
  // ---------------------------------------------------------------------------------------

  /** Children lie inside their parent, one after another. */
  ghost predicate WellNested(node: Node)
    decreases node
  {
    && node.from <= node.to
    && (forall i :: 0 <= i < |node.children| ==>
          && WellNested(node.children[i].node)
          && node.from <= node.children[i].node.from && node.children[i].node.to <= node.to)
    && (forall i, j :: 0 <= i < j < |node.children| ==> node.children[i].node.to <= node.children[j].node.from)
  }

  /** Definitions are not empty, and their bodies do not fill them. */
  ghost predicate ProperBodies(g: Grammar, node: Node)
    decreases node
  {
    forall i :: 0 <= i < |node.children| ==>
      && ProperBodies(g, node.children[i].node)
      && (Defines(g, node.children[i].node.kind) ==> HasProperBody(node.children[i].node))
  }

  predicate HasProperBody(node: Node) {
    && node.from < node.to
    && forall j :: 0 <= j < |node.children| && node.children[j].field == Some("body") ==>
         node.from < node.children[j].node.from || node.children[j].node.to < node.to
  }

  predicate Within(found: seq<Found>, from: nat, to: nat) {
    forall i :: 0 <= i < |found| ==> from <= found[i].node.from < found[i].node.to <= to
  }

  /** `a` properly encloses `b`. */
  predicate Encloses(a: Node, b: Node) {
    a.from <= b.from < b.to <= a.to && (a.from < b.from || b.to < a.to)
  }

  /** In document order: what comes earlier ends before the later one starts, or encloses it. */
  predicate InOrder(found: seq<Found>) {
    forall i, j :: 0 <= i < j < |found| ==> found[i].node.to <= found[j].node.from || Encloses(found[i].node, found[j].node)
  }

  lemma InOrderConcat(a: seq<Found>, b: seq<Found>, from: nat, mid: nat, to: nat)
    requires Within(a, from, mid) && InOrder(a) && Within(b, mid, to) && InOrder(b) && from <= mid <= to
    ensures Within(a + b, from, to) && InOrder(a + b)
  {
  }

  lemma {:induction false} UpToInOrder(r: Readers, g: Grammar, node: Node, n: nat)
    requires WellNested(node) && ProperBodies(g, node) && n <= |node.children|
    ensures var to := if n == 0 then node.from else node.children[n - 1].node.to;
            node.from <= to <= node.to && Within(SymbolsUpTo(r, g, node, n), node.from, to)
    ensures InOrder(SymbolsUpTo(r, g, node, n))
    decreases node, n
  {
    if n > 0 {
      hide SymbolsOf, Within, InOrder, Defines, HasProperBody;
      var child := node.children[n - 1].node;
      UpToInOrder(r, g, node, n - 1);
      OfInOrder(r, g, child);
      var to := if n == 1 then node.from else node.children[n - 2].node.to;
      assert child.from <= child.to;
      WithinWider(SymbolsOf(r, g, child), child.from, to, child.to);
      InOrderConcat(SymbolsUpTo(r, g, node, n - 1), SymbolsOf(r, g, child), node.from, to, child.to);
    } else {
      assert SymbolsUpTo(r, g, node, 0) == [];
    }
  }

  lemma WithinWider(found: seq<Found>, from: nat, from': nat, to: nat)
    requires Within(found, from, to) && from' <= from
    ensures Within(found, from', to)
  {
  }

  lemma {:induction false} OfInOrder(r: Readers, g: Grammar, child: Node)
    requires WellNested(child) && ProperBodies(g, child) && (Defines(g, child.kind) ==> HasProperBody(child))
    ensures Within(SymbolsOf(r, g, child), child.from, child.to) && InOrder(SymbolsOf(r, g, child))
    decreases child, |child.children| + 2
  {
    hide SymbolsUpTo, SymbolsIn, SymbolsInBody, Within, InOrder, Defines, SpanRule, IsSymbol;
    var rule := SpanRule(g, child.kind);
    RuleIsTable(r, g, child, Signature("", [], None, 0, 0), Function);
    BodyOf(r, g, child);
    var at := FieldAt(child, "body");
    if rule.Through? {
      AllInOrder(r, g, child);
    } else if rule.body && at.Some? {
      var body := child.children[at.value].node;
      assert WellNested(body) && ProperBodies(g, body) && child.from <= body.from && body.to <= child.to;
      AllInOrder(r, g, body);
      OwnFirst(child, FoundAt(r, child, rule), SymbolsInBody(r, g, child), body.from, body.to);
    } else {
      NothingInOrder(child.from);
      OwnFirst(child, FoundAt(r, child, rule), [], child.from, child.from);
    }
  }

  lemma NothingInOrder(from: nat)
    ensures Within([], from, from) && InOrder([])
  {
  }

  lemma {:induction false} AllInOrder(r: Readers, g: Grammar, node: Node)
    requires WellNested(node) && ProperBodies(g, node)
    ensures Within(SymbolsIn(r, g, node), node.from, node.to) && InOrder(SymbolsIn(r, g, node))
    decreases node, |node.children| + 1
  {
    UpToInOrder(r, g, node, |node.children|);
  }

  lemma BodyOf(r: Readers, g: Grammar, node: Node)
    ensures SymbolsInBody(r, g, node) ==
            match FieldAt(node, "body")
            case None => []
            case Some(i) => SymbolsIn(r, g, node.children[i].node)
  {
  }

  lemma OwnFirst(node: Node, own: seq<Found>, inside: seq<Found>, from: nat, to: nat)
    requires node.from < node.to && |own| <= 1 && (own != [] ==> own[0].node == node)
    requires node.from <= from && to <= node.to && (inside == [] || node.from < from || to < node.to)
    requires Within(inside, from, to) && InOrder(inside)
    ensures Within(own + inside, node.from, node.to) && InOrder(own + inside)
  {
    InsideIsEnclosed(node, inside, from, to);
    hide Encloses;
    var all := own + inside;
    forall i, j | 0 <= i < j < |all|
      ensures all[i].node.to <= all[j].node.from || Encloses(all[i].node, all[j].node)
    {
      assert all[j] == inside[j - |own|];
      if i < |own| {
        assert all[i].node == node;
      } else {
        assert all[i] == inside[i - |own|];
      }
    }
  }

  lemma InsideIsEnclosed(node: Node, inside: seq<Found>, from: nat, to: nat)
    requires node.from <= from && to <= node.to && (inside == [] || node.from < from || to < node.to)
    requires Within(inside, from, to)
    ensures forall j :: 0 <= j < |inside| ==> Encloses(node, inside[j].node)
  {
  }

  /** On a well-nested tree the symbols come in document order, an enclosing one before those it encloses, and
      no range of the file is emitted twice. */
  lemma DocumentOrder(r: Readers, g: Grammar, node: Node, i: nat, j: nat)
    requires WellNested(node) && ProperBodies(g, node)
    requires i < j < |SymbolsIn(r, g, node)|
    ensures var a, b := SymbolsIn(r, g, node)[i].node, SymbolsIn(r, g, node)[j].node;
            && !Encloses(b, a) && (a.from != b.from || a.to != b.to)
            && (a.to <= b.from || Encloses(a, b))
  {
    hide SymbolsUpTo;
    AllInOrder(r, g, node);
  }

  predicate Inside(found: seq<Found>, from: nat, to: nat) {
    forall i :: 0 <= i < |found| ==> from <= found[i].node.from && found[i].node.to <= to
  }

  /** Nothing later encloses anything earlier. */
  predicate OutsideIn(found: seq<Found>) {
    forall i, j :: 0 <= i < j < |found| ==> !Encloses(found[j].node, found[i].node)
  }

  lemma {:induction false} UpToOutsideIn(r: Readers, g: Grammar, node: Node, n: nat)
    requires WellNested(node) && n <= |node.children|
    ensures Inside(SymbolsUpTo(r, g, node, n), node.from, if n == 0 then node.from else node.children[n - 1].node.to)
    ensures OutsideIn(SymbolsUpTo(r, g, node, n))
    decreases node, n
  {
    if n > 0 {
      hide SymbolsOf;
      UpToOutsideIn(r, g, node, n - 1);
      OfOutsideIn(r, g, node.children[n - 1].node);
    }
  }

  lemma {:induction false} OfOutsideIn(r: Readers, g: Grammar, child: Node)
    requires WellNested(child)
    ensures Inside(SymbolsOf(r, g, child), child.from, child.to) && OutsideIn(SymbolsOf(r, g, child))
    decreases child, |child.children| + 2
  {
    hide SymbolsUpTo, SymbolsIn, SymbolsInBody;
    AllOutsideIn(r, g, child);
    var at := FieldAt(child, "body");
    if at.Some? {
      assert WellNested(child.children[at.value].node);
      AllOutsideIn(r, g, child.children[at.value].node);
    }
    BodyOf(r, g, child);
    var rule := SpanRule(g, child.kind);
    if rule.Emit? {
      OwnOutside(child, FoundAt(r, child, rule), if rule.body then SymbolsInBody(r, g, child) else []);
    }
  }

  lemma {:induction false} AllOutsideIn(r: Readers, g: Grammar, node: Node)
    requires WellNested(node)
    ensures Inside(SymbolsIn(r, g, node), node.from, node.to) && OutsideIn(SymbolsIn(r, g, node))
    decreases node, |node.children| + 1
  {
    UpToOutsideIn(r, g, node, |node.children|);
  }

  lemma OwnOutside(node: Node, own: seq<Found>, inside: seq<Found>)
    requires node.from <= node.to && |own| <= 1 && (own != [] ==> own[0].node == node)
    requires Inside(inside, node.from, node.to) && OutsideIn(inside)
    ensures Inside(own + inside, node.from, node.to) && OutsideIn(own + inside)
  {
  }

  /** On any well-nested tree, even with empty nodes, a symbol is emitted before every symbol it encloses. */
  lemma EnclosingComesFirst(r: Readers, g: Grammar, node: Node, i: nat, j: nat)
    requires WellNested(node)
    requires i < |SymbolsIn(r, g, node)| && j < |SymbolsIn(r, g, node)|
    requires Encloses(SymbolsIn(r, g, node)[i].node, SymbolsIn(r, g, node)[j].node)
    ensures i < j
  {
    UpToOutsideIn(r, g, node, |node.children|);
  }

  // ---------------------------------------------------------------------------------------
  // Lines
  // ---------------------------------------------------------------------------------------

  /** Every node below that the rules emit starts on one of the first `total` rows. */
  ghost predicate InFile(g: Grammar, node: Node, total: nat)
    decreases node
  {
    forall i :: 0 <= i < |node.children| ==>
      && (SpanRule(g, node.children[i].node.kind).Emit? ==> node.children[i].node.startRow < total)
      && InFile(g, node.children[i].node, total)
  }

  predicate StartIn(found: seq<Found>, total: nat) {
    forall i :: 0 <= i < |found| ==> found[i].node.startRow < total
  }

  lemma {:induction false} AllInFile(r: Readers, g: Grammar, node: Node, n: nat, total: nat)
    requires InFile(g, node, total) && n <= |node.children|
    ensures StartIn(SymbolsUpTo(r, g, node, n), total)
    decreases node, n
  {
    if n > 0 {
      var child := node.children[n - 1].node;
      assert InFile(g, child, total);
      hide SymbolsOf;
      AllInFile(r, g, node, n - 1, total);
      ChildInFile(r, g, child, total);
    }
  }

  lemma {:induction false} ChildInFile(r: Readers, g: Grammar, child: Node, total: nat)
    requires InFile(g, child, total) && (SpanRule(g, child.kind).Emit? ==> child.startRow < total)
    ensures StartIn(SymbolsOf(r, g, child), total)
    decreases child, |child.children| + 2
  {
    hide SymbolsUpTo, SymbolsInBody;
    AllInFile(r, g, child, |child.children|, total);
    BodyOf(r, g, child);
    var at := FieldAt(child, "body");
    if at.Some? {
      var body := child.children[at.value].node;
      assert InFile(g, body, total);
      AllInFile(r, g, body, |body.children|, total);
    }
    assert StartIn(SymbolsInBody(r, g, child), total);
    var rule := SpanRule(g, child.kind);
    if rule.Emit? {
      assert StartIn(FoundAt(r, child, rule), total);
    }
  }

  /** Spans of a tree over a file keep the contract the chunker relies on. */
  lemma SpansMeetContract(r: Readers, g: Grammar, node: Node, total: nat)
    requires InFile(g, node, total)
    ensures ParserContract(Spans(SymbolsIn(r, g, node)), total)
  {
    AllInFile(r, g, node, |node.children|, total);
    StartsMeetContract(SymbolsIn(r, g, node), total);
  }

  lemma SpanStart(found: seq<Found>, i: nat)
    ensures |Spans(found)| == |found|
    ensures i < |found| ==> Spans(found)[i].start == found[i].node.startRow + 1
  {
  }

  lemma StartsMeetContract(found: seq<Found>, total: nat)
    requires StartIn(found, total)
    ensures ParserContract(Spans(found), total)
  {
    hide Spans;
    SpanStart(found, 0);
    forall i | 0 <= i < |Spans(found)|
      ensures 1 <= total && Spans(found)[i].start <= total
    {
      SpanStart(found, i);
    }
  }

  function GrammarOf(language: Language): Option<Grammar> {
    match language
    case Bash => Some(Grammar.Bash)
    case C => Some(Grammar.C)
    case Cpp => Some(Grammar.Cpp)
    case Python => Some(Grammar.Python)
    case Ruby => Some(Grammar.Ruby)
    case _ => None
  }

  /** For the languages whose walks are modelled, the parser that the index assumes is the span walk
      over the file's tree: this is what makes its contract hold. */
  lemma WalkedSpansAreSound(w: World, r: Readers, language: Language, tree: string -> Node, content: string)
    requires GrammarOf(language).Some?
    requires w.spans(content, language) == Spans(SymbolsIn(r, GrammarOf(language).value, tree(content)))
    requires InFile(GrammarOf(language).value, tree(content), |Lines(content)|)
    ensures ParserContract(w.spans(content, language), |Lines(content)|)
  {
    SpansMeetContract(r, GrammarOf(language).value, tree(content), |Lines(content)|);
  }
}
