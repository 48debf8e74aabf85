/**
 * The documentation extractor of SassParser: one ordered pass over the children of
 * a syntax-tree node that keeps a single pending comment and pairs it with the next
 * variable declaration, ruleset or mixin/function, recursing into at-rules.
 *
 * The functions below are the specification (a left fold over the children, so that
 * the state after the first i children is `Walk(classify, children[..i], comment)`);
 * the methods `ParseNode`, `CollectParameters` and `Parse` do the work step by step
 * as the source does and are proved equal to it.
 */
module SassParser {
  import opened Wrappers
  import opened SassSyntax
  import opened Documentation

  /** Why extraction stops: a node lacks a child the source dereferences, or the classifier throws. */
  datatype ParseError = MissingChild(parent: Kind, child: Kind) | UnreadableComment(comment: string)

  /** The traversal state of one frame: the pending comment and what was emitted so far. */
  datatype Frame = Frame(pending: Option<string>, emitted: seq<Entity>)

  /** The pending-comment text a multiline comment node becomes. */
  function CommentText(token: Node): string {
    "/*" + token.text + "*/"
  }

  /** The content of the `ident` child of `n`. */
  function IdentOf(n: Node): Result<string, ParseError> {
    match First(n, Ident)
    case None => Err(MissingChild(n.kind, Ident))
    case Some(ident) => Ok(ident.text)
  }

  /** `token.first('property').first('variable').first('ident').content` of a declaration. */
  function DeclarationIdent(token: Node): Result<string, ParseError> {
    match First(token, Property)
    case None => Err(MissingChild(token.kind, Property))
    case Some(property) =>
      match First(property, Variable)
      case None => Err(MissingChild(Property, Variable))
      case Some(variable) => IdentOf(variable)
  }

  /** `selector.first('class').first('ident').content` of a selector. */
  function SelectorClassIdent(selector: Node): Result<string, ParseError> {
    match First(selector, Class)
    case None => Err(MissingChild(selector.kind, Class))
    case Some(classNode) => IdentOf(classNode)
  }

  /** The variable documented by a comment before a declaration, if the classifier drafts one. */
  function DocumentDeclaration(classify: Classifier, comment: string, token: Node): Result<seq<Entity>, ParseError> {
    match classify(comment)
    case Rejected => Err(UnreadableComment(comment))
    case VariableDraft(doc) =>
      (match DeclarationIdent(token)
       case Err(e) => Err(e)
       case Ok(ident) => Ok([VariableEntity(Tag(doc, "$" + ident))]))
    case _ => Ok([])
  }

  /**
   * The classes documented by a comment before a ruleset: the comment is classified
   * once per selector, and each class draft names one entity after that selector.
   */
  function DocumentSelectors(classify: Classifier, comment: string, selectors: seq<Node>): Result<seq<Entity>, ParseError>
    decreases |selectors|
  {
    if selectors == [] then Ok([])
    else
      match DocumentSelectors(classify, comment, selectors[..|selectors| - 1])
      case Err(e) => Err(e)
      case Ok(es) =>
        match classify(comment)
        case Rejected => Err(UnreadableComment(comment))
        case ClassDraft(doc) =>
          (match SelectorClassIdent(selectors[|selectors| - 1])
           case Err(e) => Err(e)
           case Ok(ident) => Ok(es + [ClassEntity(Tag(doc, "." + ident))]))
        case _ => Ok(es)
  }

  /** The parameter names `'$' + ident` of the given variable nodes, in order. */
  function ParameterNames(variables: seq<Node>): Result<seq<string>, ParseError>
    decreases |variables|
  {
    if variables == [] then Ok([])
    else
      match ParameterNames(variables[..|variables| - 1])
      case Err(e) => Err(e)
      case Ok(names) =>
        match IdentOf(variables[|variables| - 1])
        case Err(e) => Err(e)
        case Ok(ident) => Ok(names + ["$" + ident])
  }

  predicate HasParameter(ps: seq<Parameter>, name: string) {
    exists k :: 0 <= k < |ps| && ps[k].name == name
  }

  /** Appends a parameter of that name unless one is already listed. */
  function AddParameter(ps: seq<Parameter>, name: string): seq<Parameter> {
    if HasParameter(ps, name) then ps else ps + [Parameter(name, NoMeta)]
  }

  /** Adds each name in turn, skipping the ones already listed. */
  function AddParameters(ps: seq<Parameter>, names: seq<string>): seq<Parameter>
    decreases |names|
  {
    if names == [] then ps
    else AddParameter(AddParameters(ps, names[..|names| - 1]), names[|names| - 1])
  }

  /** The parameters of a callable draft once the variables of an argument list are added. */
  function ArgumentParameters(ps: seq<Parameter>, arguments: Node): Result<seq<Parameter>, ParseError> {
    match ParameterNames(Descendants(arguments, Variable))
    case Err(e) => Err(e)
    case Ok(names) => Ok(AddParameters(ps, names))
  }

  /** The callable documented by a comment before a mixin or function, if the classifier drafts one. */
  function DocumentCallable(classify: Classifier, comment: string, token: Node): Result<seq<Entity>, ParseError> {
    match classify(comment)
    case Rejected => Err(UnreadableComment(comment))
    case CallableDraft(doc, ps) =>
      (match IdentOf(token)
       case Err(e) => Err(e)
       case Ok(name) =>
         match First(token, Arguments)
         case None => Ok([CallableEntity(Tag(doc, name), ps)])
         case Some(arguments) =>
           match ArgumentParameters(ps, arguments)
           case Err(e) => Err(e)
           case Ok(params) => Ok([CallableEntity(Tag(doc, name), params)]))
    case _ => Ok([])
  }

  /** The frame after a construct consumed the pending comment. */
  function Consumed(r: Result<seq<Entity>, ParseError>): Result<Frame, ParseError> {
    match r
    case Err(e) => Err(e)
    case Ok(es) => Ok(Frame(None, es))
  }

  /**
   * What one child does to the pending comment, and what it emits. An at-rule is walked
   * by a fresh frame seeded with the pending comment, and leaves that comment pending.
   */
  function Visit(classify: Classifier, token: Node, pending: Option<string>): Result<Frame, ParseError>
    decreases token, 2
  {
    if token.kind == Atrule then
      match Extract(classify, token, pending)
      case Err(e) => Err(e)
      case Ok(inner) => Ok(Frame(pending, inner))
    else if token.kind == MultilineComment then Ok(Frame(Some(CommentText(token)), []))
    else if token.kind == Declaration then
      if !Truthy(pending) then Ok(Frame(pending, []))
      else Consumed(DocumentDeclaration(classify, pending.value, token))
    else if token.kind == Ruleset then
      if !Truthy(pending) then Ok(Frame(pending, []))
      else Consumed(DocumentSelectors(classify, pending.value, ChildrenOfKind(token.children, Selector)))
    else if token.kind == Mixin || token.kind == Function then
      if !Truthy(pending) then Ok(Frame(pending, []))
      else Consumed(DocumentCallable(classify, pending.value, token))
    else if token.kind == DeclarationDelimiter then Ok(Frame(None, []))
    else Ok(Frame(pending, []))  // `space` and every kind the source does not list
  }

  /** The state of a frame seeded with `comment` after it has visited `tokens` in order. */
  function Walk(classify: Classifier, tokens: seq<Node>, comment: Option<string>): Result<Frame, ParseError>
    decreases tokens, 0
  {
    if tokens == [] then Ok(Frame(comment, []))
    else Step(classify, Walk(classify, tokens[..|tokens| - 1], comment), tokens[|tokens| - 1])
  }

  /** The frame `f` followed by the outcome `r` of visiting further children. */
  function Then(f: Frame, r: Result<Frame, ParseError>): Result<Frame, ParseError> {
    match r
    case Err(e) => Err(e)
    case Ok(g) => Ok(Frame(g.pending, f.emitted + g.emitted))
  }

  /** The state after visiting one more child `t` from the state `r`. */
  function Step(classify: Classifier, r: Result<Frame, ParseError>, t: Node): Result<Frame, ParseError>
    decreases t, 3
  {
    match r
    case Err(e) => Err(e)
    case Ok(f) => Then(f, Visit(classify, t, f.pending))
  }

  /** `parseNode(node, comment)`: the entities documented among the children of `node`. */
  function Extract(classify: Classifier, node: Node, comment: Option<string>): Result<seq<Entity>, ParseError>
    decreases node, 1
  {
    match Walk(classify, node.children, comment)
    case Err(e) => Err(e)
    case Ok(f) => Ok(f.emitted)
  }

  // ---------------------------------------------------------------------------
  // Once an error occurs, visiting more children does not undo it.

  lemma {:induction false} WalkErrorPersists(classify: Classifier, tokens: seq<Node>, comment: Option<string>, i: nat, e: ParseError)
    requires i <= |tokens|
    requires Walk(classify, tokens[..i], comment) == Err(e)
    ensures Walk(classify, tokens, comment) == Err(e)
    decreases |tokens| - i
  {
    if i < |tokens| {
      assert tokens[..i + 1][..i] == tokens[..i];
      WalkErrorPersists(classify, tokens, comment, i + 1, e);
    } else {
      assert tokens[..i] == tokens;
    }
  }

  lemma {:induction false} SelectorsErrorPersists(classify: Classifier, comment: string, selectors: seq<Node>, i: nat, e: ParseError)
    requires i <= |selectors|
    requires DocumentSelectors(classify, comment, selectors[..i]) == Err(e)
    ensures DocumentSelectors(classify, comment, selectors) == Err(e)
    decreases |selectors| - i
  {
    if i < |selectors| {
      assert selectors[..i + 1][..i] == selectors[..i];
      SelectorsErrorPersists(classify, comment, selectors, i + 1, e);
    } else {
      assert selectors[..i] == selectors;
    }
  }

  lemma {:induction false} NamesErrorPersists(variables: seq<Node>, i: nat, e: ParseError)
    requires i <= |variables|
    requires ParameterNames(variables[..i]) == Err(e)
    ensures ParameterNames(variables) == Err(e)
    decreases |variables| - i
  {
    if i < |variables| {
      assert variables[..i + 1][..i] == variables[..i];
      NamesErrorPersists(variables, i + 1, e);
    } else {
      assert variables[..i] == variables;
    }
  }

  // ---------------------------------------------------------------------------
  // The imperative extractor.

  /** The `find` over the parameters listed so far: is one of them called `name`? */
  method Listed(ps: seq<Parameter>, name: string) returns (known: bool)
    ensures known <==> HasParameter(ps, name)
  {
    known := false;
    for m := 0 to |ps|
      invariant known <==> exists q :: 0 <= q < m && ps[q].name == name
    {
      if ps[m].name == name {
        known := true;
      }
    }
  }

  /**
   * Adds `'$' + ident` of every variable under an argument list to the parameters,
   * unless a parameter of that name is already listed (the `find` check).
   */
  /** One more argument variable with an ident: its name is collected and added. */
  lemma NamesStep(parameters: seq<Parameter>, variables: seq<Node>, k: nat, names: seq<string>, ident: Node)
    requires k < |variables| && First(variables[k], Ident) == Some(ident)
    requires ParameterNames(variables[..k]) == Ok(names)
    ensures ParameterNames(variables[..k + 1]) == Ok(names + ["$" + ident.text])
    ensures AddParameters(parameters, names + ["$" + ident.text]) == AddParameter(AddParameters(parameters, names), "$" + ident.text)
  {
    assert variables[..k + 1][..k] == variables[..k];
    assert (names + ["$" + ident.text])[..|names|] == names;
  }

  method CollectParameters(parameters: seq<Parameter>, arguments: Node) returns (r: Result<seq<Parameter>, ParseError>)
    ensures r == ArgumentParameters(parameters, arguments)
  {
    var variables := Descendants(arguments, Variable);
    var ps := parameters;
    ghost var names: seq<string> := [];
    for k := 0 to |variables|
      invariant ParameterNames(variables[..k]) == Ok(names)
      invariant ps == AddParameters(parameters, names)
    {
      assert variables[..k + 1][..k] == variables[..k];
      var ident := First(variables[k], Ident);
      if ident.None? {
        r := Err(MissingChild(variables[k].kind, Ident));
        NamesErrorPersists(variables, k + 1, r.error);
        return;
      }
      var name := "$" + ident.value.text;
      NamesStep(parameters, variables, k, names, ident.value);
      var known := Listed(ps, name);
      if !known {
        ps := ps + [Parameter(name, NoMeta)];
      }
      names := names + [name];
    }
    assert variables[..|variables|] == variables;
    r := Ok(ps);
  }

  /**
   * The `ruleset` case: the pending comment is classified once per selector child, and
   * each class draft is named after that selector's first class.
   */
  method DocumentRuleset(classify: Classifier, comment: string, token: Node) returns (r: Result<seq<Entity>, ParseError>)
    ensures r == DocumentSelectors(classify, comment, ChildrenOfKind(token.children, Selector))
  {
    var selectors := ChildrenOfKind(token.children, Selector);
    var result: seq<Entity> := [];
    for j := 0 to |selectors|
      invariant DocumentSelectors(classify, comment, selectors[..j]) == Ok(result)
    {
      assert selectors[..j + 1][..j] == selectors[..j];
      var documentation := classify(comment);
      if documentation.Rejected? {
        r := Err(UnreadableComment(comment));
        SelectorsErrorPersists(classify, comment, selectors, j + 1, r.error);
        return;
      }
      if documentation.ClassDraft? {
        var ident := SelectorClassIdent(selectors[j]);
        if ident.Err? {
          r := Err(ident.error);
          SelectorsErrorPersists(classify, comment, selectors, j + 1, r.error);
          return;
        }
        result := result + [ClassEntity(Tag(documentation.doc, "." + ident.value))];
      }
    }
    assert selectors[..|selectors|] == selectors;
    r := Ok(result);
  }

  /** The `mixin` and `function` case. */
  method DocumentMixin(classify: Classifier, comment: string, token: Node) returns (r: Result<seq<Entity>, ParseError>)
    ensures r == DocumentCallable(classify, comment, token)
  {
    var documentation := classify(comment);
    if documentation.Rejected? {
      return Err(UnreadableComment(comment));
    }
    if !documentation.CallableDraft? {
      return Ok([]);
    }
    var name := IdentOf(token);
    if name.Err? {
      return Err(name.error);
    }
    var parameters := documentation.parameters;
    var arguments := First(token, Arguments);
    if arguments.Some? {
      var collected := CollectParameters(parameters, arguments.value);
      if collected.Err? {
        return Err(collected.error);
      }
      parameters := collected.value;
    }
    r := Ok([CallableEntity(Tag(documentation.doc, name.value), parameters)]);
  }

  /** One turn of the `switch` in `parseNode` for a child that is not an at-rule. */
  method VisitToken(classify: Classifier, token: Node, pending: Option<string>) returns (r: Result<Frame, ParseError>)
    requires token.kind != Atrule
    ensures r == Visit(classify, token, pending)
  {
    var current := pending;
    var emitted: seq<Entity> := [];
    match token.kind {
      case MultilineComment =>
        current := Some(CommentText(token));
      case Declaration =>
        if Truthy(current) {
          var documentation := classify(current.value);
          if documentation.Rejected? {
            return Err(UnreadableComment(current.value));
          }
          if documentation.VariableDraft? {
            var ident := DeclarationIdent(token);
            if ident.Err? {
              return Err(ident.error);
            }
            emitted := [VariableEntity(Tag(documentation.doc, "$" + ident.value))];
          }
          current := None;
        }
      case Ruleset =>
        if Truthy(current) {
          var documented := DocumentRuleset(classify, current.value, token);
          if documented.Err? {
            return Err(documented.error);
          }
          emitted := documented.value;
          current := None;
        }
      case Mixin =>
        if Truthy(current) {
          var documented := DocumentMixin(classify, current.value, token);
          if documented.Err? {
            return Err(documented.error);
          }
          emitted := documented.value;
          current := None;
        }
      case Function =>
        if Truthy(current) {
          var documented := DocumentMixin(classify, current.value, token);
          if documented.Err? {
            return Err(documented.error);
          }
          emitted := documented.value;
          current := None;
        }
      case DeclarationDelimiter =>
        current := None;
      case _ =>
        // `space`, and every type the source does not list, leave the comment pending
    }
    r := Ok(Frame(current, emitted));
  }

  /**
   * `parseNode(node, comment)`: one pass over the children of `node` with a pending
   * comment seeded by `comment`; an at-rule is walked by a recursive call seeded with
   * the current pending comment, whose entities are appended in place and which
   * leaves this frame's pending comment as it was.
   */
  method ParseNode(classify: Classifier, node: Node, comment: Option<string>) returns (r: Result<seq<Entity>, ParseError>)
    ensures r == Extract(classify, node, comment)
    decreases node
  {
    var result: seq<Entity> := [];
    var current := comment;
    var tokens := node.children;
    for i := 0 to |tokens|
      invariant Walk(classify, tokens[..i], comment) == Ok(Frame(current, result))
    {
      var token := tokens[i];
      assert tokens[..i + 1][..i] == tokens[..i];
      assert Walk(classify, tokens[..i + 1], comment) == Then(Frame(current, result), Visit(classify, token, current));
      if token.kind == Atrule {
        var childResult := ParseNode(classify, token, current);
        if childResult.Err? {
          r := childResult;
          WalkErrorPersists(classify, tokens, comment, i + 1, r.error);
          return;
        }
        result := result + childResult.value;
      } else {
        var step := VisitToken(classify, token, current);
        if step.Err? {
          r := Err(step.error);
          WalkErrorPersists(classify, tokens, comment, i + 1, r.error);
          return;
        }
        current := step.value.pending;
        result := result + step.value.emitted;
      }
    }
    assert tokens[..|tokens|] == tokens;
    r := Ok(result);
  }

  /**
   * `parse(content)`: the guard on empty content in the source has no effect (it
   * lacks a `return`), so the analyzer is consulted for every content; a tree it
   * cannot build (it throws or returns nothing) yields no entities.
   */
  method Parse(classify: Classifier, analyze: string -> Option<Node>, trim: string -> string, content: string)
    returns (r: Result<seq<Entity>, ParseError>)
    ensures analyze(trim(content)).None? ==> r == Ok([])
    ensures analyze(trim(content)).Some? ==> r == Extract(classify, analyze(trim(content)).value, None)
  {
    var contents := trim(content);
    var ast := analyze(contents);
    if ast.None? {
      return Ok([]);
    }
    r := ParseNode(classify, ast.value, None);
  }
}
