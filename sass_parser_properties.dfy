/**
 * What the documentation extractor promises: the effect of each node type on the
 * pending comment and on the output, the order of the output, the tags and names of
 * the entities, and the de-duplication of callable parameters.
 */
module SassParserProperties {
  import opened Wrappers
  import opened SassSyntax
  import opened Documentation
  import opened SassParser

  /** Walking one more child is one `Step` from the walk so far. */
  lemma WalkStep(classify: Classifier, tokens: seq<Node>, t: Node, c: Option<string>)
    ensures Walk(classify, tokens + [t], c) == Step(classify, Walk(classify, tokens, c), t)
  {
    assert (tokens + [t])[..|tokens|] == tokens;
  }

  // ---------------------------------------------------------------------------
  // One child at a time.

  /** A multiline comment replaces whatever comment was pending, and emits nothing. */
  lemma CommentReplacesPending(classify: Classifier, tokens: seq<Node>, t: Node, c: Option<string>, f: Frame)
    requires Walk(classify, tokens, c) == Ok(f)
    requires t.kind == MultilineComment
    ensures Walk(classify, tokens + [t], c) == Ok(Frame(Some(CommentText(t)), f.emitted))
  {
    WalkStep(classify, tokens, t, c);
    assert f.emitted + [] == f.emitted;
  }

  /**
   * Without a pending comment, no construct emits anything and none can fail; only a
   * comment can make a comment pending again.
   */
  lemma NothingDocumentedWithoutComment(classify: Classifier, tokens: seq<Node>, t: Node, c: Option<string>, f: Frame)
    requires Walk(classify, tokens, c) == Ok(f) && f.pending.None?
    requires t.kind != MultilineComment && t.kind != Atrule
    ensures Walk(classify, tokens + [t], c) == Ok(f)
  {
    WalkStep(classify, tokens, t, c);
    assert f.emitted + [] == f.emitted;
  }

  /**
   * The types the `switch` has no case for: `space`, the types only the node queries
   * name (`property`, `variable`, `ident`, `selector`, `class`, `arguments`) and every
   * other type all fall to `default`.
   */
  predicate Inert(t: Node) {
    t.kind !in {MultilineComment, Declaration, Ruleset, Mixin, Function, DeclarationDelimiter, Atrule}
  }

  /** Every type the `switch` does not list leaves the pending comment and the output as they are. */
  lemma InertKeepsPending(classify: Classifier, tokens: seq<Node>, t: Node, c: Option<string>, f: Frame)
    requires Walk(classify, tokens, c) == Ok(f)
    requires Inert(t)
    ensures Walk(classify, tokens + [t], c) == Ok(f)
  {
    WalkStep(classify, tokens, t, c);
    InertStep(classify, Ok(f), t);
  }

  /** A bare `;` discards the pending comment without emitting. */
  lemma DelimiterDiscardsComment(classify: Classifier, tokens: seq<Node>, t: Node, c: Option<string>, f: Frame)
    requires Walk(classify, tokens, c) == Ok(f)
    requires t.kind == DeclarationDelimiter
    ensures Walk(classify, tokens + [t], c) == Ok(Frame(None, f.emitted))
  {
    WalkStep(classify, tokens, t, c);
    assert Visit(classify, t, f.pending) == Ok(Frame(None, []));
    assert f.emitted + [] == f.emitted;
  }

  /**
   * A declaration after a comment: the comment is classified once and cleared whatever
   * the verdict; a variable draft becomes one entity named `'$' + ident`, any other
   * draft nothing, and a rejection or a missing identifier stops the extraction.
   */
  lemma DeclarationConsumesComment(classify: Classifier, tokens: seq<Node>, t: Node, c: Option<string>, f: Frame, comment: string)
    requires Walk(classify, tokens, c) == Ok(f) && f.pending == Some(comment) && comment != ""
    requires t.kind == Declaration
    ensures classify(comment).Rejected? ==> Walk(classify, tokens + [t], c) == Err(UnreadableComment(comment))
    ensures classify(comment).VariableDraft? && DeclarationIdent(t).Err? ==>
      Walk(classify, tokens + [t], c) == Err(DeclarationIdent(t).error)
    ensures classify(comment).VariableDraft? && DeclarationIdent(t).Ok? ==>
      Walk(classify, tokens + [t], c) ==
        Ok(Frame(None, f.emitted + [VariableEntity(Tag(classify(comment).doc, "$" + DeclarationIdent(t).value))]))
    ensures !classify(comment).VariableDraft? && !classify(comment).Rejected? ==>
      Walk(classify, tokens + [t], c) == Ok(Frame(None, f.emitted))
  {
    WalkStep(classify, tokens, t, c);
    assert f.emitted + [] == f.emitted;
  }

  /** Every selector has a class identifier. */
  predicate Classed(selectors: seq<Node>) {
    forall k :: 0 <= k < |selectors| ==> SelectorClassIdent(selectors[k]).Ok?
  }

  lemma ClassedSnoc(selectors: seq<Node>)
    requires selectors != []
    ensures Classed(selectors) <==>
      Classed(selectors[..|selectors| - 1]) && SelectorClassIdent(selectors[|selectors| - 1]).Ok?
  {
    assert forall k :: 0 <= k < |selectors| - 1 ==> selectors[k] == selectors[..|selectors| - 1][k];
  }

  /**
   * Documenting the selectors of a ruleset fails exactly when the comment is classified
   * (there is a selector) and rejected, or when it is a class draft and some selector has
   * no class identifier; a draft other than a class documents nothing.
   */
  lemma {:induction false} SelectorsDocumented(classify: Classifier, comment: string, selectors: seq<Node>)
    ensures DocumentSelectors(classify, comment, selectors).Ok? <==>
      selectors == [] || (!classify(comment).Rejected? && (classify(comment).ClassDraft? ==> Classed(selectors)))
    ensures DocumentSelectors(classify, comment, selectors).Ok? && !classify(comment).ClassDraft? ==>
      DocumentSelectors(classify, comment, selectors).value == []
    decreases |selectors|
  {
    if selectors != [] {
      SelectorsDocumented(classify, comment, selectors[..|selectors| - 1]);
      ClassedSnoc(selectors);
    }
  }

  /** `es` holds one class entity per selector, in order, named `'.' + class` and documented by `doc`. */
  predicate NamedAfter(es: seq<Entity>, doc: Doc, selectors: seq<Node>) {
    |es| == |selectors| &&
    forall k :: 0 <= k < |selectors| ==>
      SelectorClassIdent(selectors[k]).Ok? &&
      es[k] == ClassEntity(Tag(doc, "." + SelectorClassIdent(selectors[k]).value))
  }

  lemma NamedAfterSnoc(es: seq<Entity>, doc: Doc, selectors: seq<Node>)
    requires selectors != []
    requires NamedAfter(es, doc, selectors[..|selectors| - 1])
    requires SelectorClassIdent(selectors[|selectors| - 1]).Ok?
    ensures NamedAfter(es + [ClassEntity(Tag(doc, "." + SelectorClassIdent(selectors[|selectors| - 1]).value))], doc, selectors)
  {
    assert forall k :: 0 <= k < |selectors| - 1 ==> selectors[k] == selectors[..|selectors| - 1][k];
  }

  /** A class draft names one class entity per selector, in selector order, `'.' + class`. */
  lemma {:induction false} SelectorsNamed(classify: Classifier, comment: string, selectors: seq<Node>)
    requires DocumentSelectors(classify, comment, selectors).Ok? && classify(comment).ClassDraft?
    ensures NamedAfter(DocumentSelectors(classify, comment, selectors).value, classify(comment).doc, selectors)
    decreases |selectors|
  {
    if selectors != [] {
      SelectorsNamed(classify, comment, selectors[..|selectors| - 1]);
      NamedAfterSnoc(DocumentSelectors(classify, comment, selectors[..|selectors| - 1]).value, classify(comment).doc, selectors);
    }
  }

  /**
   * A ruleset after a comment: the comment is cleared once, after all selectors, and
   * what is appended is what `SelectorsDocumented` and `SelectorsNamed` describe.
   */
  lemma RulesetConsumesComment(classify: Classifier, tokens: seq<Node>, t: Node, c: Option<string>, f: Frame, comment: string)
    requires Walk(classify, tokens, c) == Ok(f) && f.pending == Some(comment) && comment != ""
    requires t.kind == Ruleset
    ensures var documented := DocumentSelectors(classify, comment, ChildrenOfKind(t.children, Selector));
      match documented
      case Err(e) => Walk(classify, tokens + [t], c) == Err(e)
      case Ok(es) => Walk(classify, tokens + [t], c) == Ok(Frame(None, f.emitted + es))
  {
    WalkStep(classify, tokens, t, c);
  }

  /**
   * A mixin or function after a comment: the comment is cleared, and a callable draft
   * becomes one entity named by the definition's identifier, whose parameters are the
   * draft's own followed by the argument variables not yet listed (none are added when
   * there is no argument list).
   */
  lemma CallableConsumesComment(classify: Classifier, tokens: seq<Node>, t: Node, c: Option<string>, f: Frame, comment: string)
    requires Walk(classify, tokens, c) == Ok(f) && f.pending == Some(comment) && comment != ""
    requires t.kind == Mixin || t.kind == Function
    ensures Walk(classify, tokens + [t], c).Ok? <==>
      !classify(comment).Rejected? &&
      (classify(comment).CallableDraft? ==>
        IdentOf(t).Ok? &&
        (First(t, Arguments).Some? ==> ParameterNames(Descendants(First(t, Arguments).value, Variable)).Ok?))
    ensures Walk(classify, tokens + [t], c).Ok? ==>
      var g := Walk(classify, tokens + [t], c).value;
      g.pending.None? && |f.emitted| <= |g.emitted| <= |f.emitted| + 1 && g.emitted[..|f.emitted|] == f.emitted &&
      (|g.emitted| == |f.emitted| <==> !classify(comment).CallableDraft?)
    ensures Walk(classify, tokens + [t], c).Ok? && classify(comment).CallableDraft? ==>
      var draft := classify(comment);
      var g := Walk(classify, tokens + [t], c).value;
      IdentOf(t).Ok? &&
      g.emitted[|f.emitted|].CallableEntity? &&
      g.emitted[|f.emitted|].doc == Tag(draft.doc, IdentOf(t).value) &&
      (First(t, Arguments).None? ==> g.emitted[|f.emitted|].parameters == draft.parameters) &&
      (First(t, Arguments).Some? ==>
        ParameterNames(Descendants(First(t, Arguments).value, Variable)).Ok? &&
        g.emitted[|f.emitted|].parameters ==
          AddParameters(draft.parameters, ParameterNames(Descendants(First(t, Arguments).value, Variable)).value))
  {
    WalkStep(classify, tokens, t, c);
    assert Visit(classify, t, f.pending) == Consumed(DocumentCallable(classify, comment, t));
    CallableDocumented(classify, comment, t);
  }

  /** When documenting a callable succeeds, and what it emits. */
  lemma CallableDocumented(classify: Classifier, comment: string, t: Node)
    ensures DocumentCallable(classify, comment, t).Ok? <==>
      !classify(comment).Rejected? &&
      (classify(comment).CallableDraft? ==>
        IdentOf(t).Ok? &&
        (First(t, Arguments).Some? ==> ParameterNames(Descendants(First(t, Arguments).value, Variable)).Ok?))
    ensures DocumentCallable(classify, comment, t).Ok? ==>
      var es := DocumentCallable(classify, comment, t).value;
      (classify(comment).CallableDraft? ==> |es| == 1) && (!classify(comment).CallableDraft? ==> es == [])
  {
  }

  /**
   * An at-rule is walked by a fresh frame seeded with the current pending comment; its
   * entities are appended in place and the outer pending comment is kept, so that it
   * may still document a construct after the at-rule.
   */
  lemma AtruleKeepsOuterPending(classify: Classifier, tokens: seq<Node>, t: Node, c: Option<string>, f: Frame)
    requires Walk(classify, tokens, c) == Ok(f)
    requires t.kind == Atrule
    ensures match Extract(classify, t, f.pending)
      case Err(e) => Walk(classify, tokens + [t], c) == Err(e)
      case Ok(inner) => Walk(classify, tokens + [t], c) == Ok(Frame(f.pending, f.emitted + inner))
  {
    WalkStep(classify, tokens, t, c);
  }

  // ---------------------------------------------------------------------------
  // Whole walks.

  /**
   * Walking `xs + ys` is walking `xs`, then walking `ys` from the comment left pending;
   * the entities of `xs` come first, so the output follows the traversal order.
   */
  lemma {:induction false} WalkConcat(classify: Classifier, xs: seq<Node>, ys: seq<Node>, c: Option<string>, f: Frame)
    requires Walk(classify, xs, c) == Ok(f)
    ensures Walk(classify, xs + ys, c) == Then(f, Walk(classify, ys, f.pending))
    decreases |ys|
  {
    if ys == [] {
      assert xs + ys == xs;
      assert f.emitted + [] == f.emitted;
    } else {
      var n := |ys| - 1;
      var t := ys[n];
      var init := ys[..n];
      assert xs + ys == (xs + init) + [t];
      assert ys == init + [t];
      WalkConcat(classify, xs, init, c, f);
      ThenStep(classify, xs + init, init, t, c, f.pending, f);
    }
  }

  /** Prefixing the output commutes with one more step. */
  lemma StepThen(classify: Classifier, f: Frame, r: Result<Frame, ParseError>, t: Node)
    ensures Step(classify, Then(f, r), t) == Then(f, Step(classify, r, t))
  {
    if r.Ok? {
      var g := r.value;
      ThenThen(f, g, Visit(classify, t, g.pending));
    }
  }

  /** Output prefixes compose. */
  lemma ThenThen(f: Frame, g: Frame, r: Result<Frame, ParseError>)
    ensures Then(Frame(g.pending, f.emitted + g.emitted), r) == Then(f, Then(g, r))
  {
    if r.Ok? {
      assert f.emitted + g.emitted + r.value.emitted == f.emitted + (g.emitted + r.value.emitted);
    }
  }

  /** One more token extends two walks related by `Then` alike. */
  lemma ThenStep(classify: Classifier, a: seq<Node>, b: seq<Node>, t: Node, c: Option<string>, p: Option<string>, f: Frame)
    requires Walk(classify, a, c) == Then(f, Walk(classify, b, p))
    ensures Walk(classify, a + [t], c) == Then(f, Walk(classify, b + [t], p))
  {
    WalkStep(classify, a, t, c);
    WalkStep(classify, b, t, p);
    StepThen(classify, f, Walk(classify, b, p), t);
  }

  /**
   * Every emitted entity carries the stylesheet content type and the css content kind,
   * a variable's name starts with `$` and a class's name with `.`.
   */
  predicate WellFormedEntity(e: Entity) {
    IsTagged(e) &&
    (e.VariableEntity? ==> |e.doc.name| > 0 && e.doc.name[0] == '$') &&
    (e.ClassEntity? ==> |e.doc.name| > 0 && e.doc.name[0] == '.')
  }

  lemma {:induction false} SelectorsWellFormed(classify: Classifier, comment: string, selectors: seq<Node>)
    ensures DocumentSelectors(classify, comment, selectors).Ok? ==>
      forall e :: e in DocumentSelectors(classify, comment, selectors).value ==> e.ClassEntity? && WellFormedEntity(e)
    decreases |selectors|
  {
    if selectors != [] {
      SelectorsWellFormed(classify, comment, selectors[..|selectors| - 1]);
    }
  }

  lemma DeclarationWellFormed(classify: Classifier, comment: string, t: Node)
    ensures DocumentDeclaration(classify, comment, t).Ok? ==>
      forall e :: e in DocumentDeclaration(classify, comment, t).value ==> e.VariableEntity? && WellFormedEntity(e)
  {
  }

  lemma CallableWellFormed(classify: Classifier, comment: string, t: Node)
    ensures DocumentCallable(classify, comment, t).Ok? ==>
      forall e :: e in DocumentCallable(classify, comment, t).value ==> e.CallableEntity? && WellFormedEntity(e)
  {
  }

  lemma {:induction false} VisitWellFormed(classify: Classifier, t: Node, pending: Option<string>)
    ensures Visit(classify, t, pending).Ok? ==> forall e :: e in Visit(classify, t, pending).value.emitted ==> WellFormedEntity(e)
    decreases t, 2
  {
    if t.kind == Atrule {
      ExtractWellFormed(classify, t, pending);
    } else if !Truthy(pending) || !(t.kind in {Declaration, Ruleset, Mixin, Function}) {
      assert Visit(classify, t, pending).Ok? ==> Visit(classify, t, pending).value.emitted == [];
    } else if t.kind == Ruleset {
      SelectorsWellFormed(classify, pending.value, ChildrenOfKind(t.children, Selector));
    } else if t.kind == Declaration {
      DeclarationWellFormed(classify, pending.value, t);
    } else {
      CallableWellFormed(classify, pending.value, t);
    }
  }

  lemma {:induction false} WalkWellFormed(classify: Classifier, tokens: seq<Node>, c: Option<string>)
    ensures Walk(classify, tokens, c).Ok? ==> forall e :: e in Walk(classify, tokens, c).value.emitted ==> WellFormedEntity(e)
    decreases tokens, 0
  {
    if tokens != [] {
      var n := |tokens| - 1;
      WalkWellFormed(classify, tokens[..n], c);
      if Walk(classify, tokens[..n], c).Ok? {
        VisitWellFormed(classify, tokens[n], Walk(classify, tokens[..n], c).value.pending);
      }
    }
  }

  /** `ExtractWellFormed`: the entities `parseNode` returns are all well formed. */
  lemma {:induction false} ExtractWellFormed(classify: Classifier, node: Node, c: Option<string>)
    ensures Extract(classify, node, c).Ok? ==> forall e :: e in Extract(classify, node, c).value ==> WellFormedEntity(e)
    decreases node, 1
  {
    WalkWellFormed(classify, node.children, c);
  }

  /** No comment among the children, nor among the children of nested at-rules. */
  predicate TokensCommentFree(tokens: seq<Node>)
    decreases tokens, 0
  {
    forall k :: 0 <= k < |tokens| ==>
      tokens[k].kind != MultilineComment && (tokens[k].kind == Atrule ==> CommentFree(tokens[k]))
  }

  predicate CommentFree(n: Node)
    decreases n, 1
  {
    TokensCommentFree(n.children)
  }

  /** Without any comment and with nothing pending, a walk emits nothing and cannot fail. */
  lemma {:induction false} CommentFreeWalkEmitsNothing(classify: Classifier, tokens: seq<Node>)
    requires TokensCommentFree(tokens)
    ensures Walk(classify, tokens, None) == Ok(Frame(None, []))
    decreases tokens, 0
  {
    if tokens != [] {
      var n := |tokens| - 1;
      var t := tokens[n];
      assert tokens == tokens[..n] + [t];
      CommentFreeWalkEmitsNothing(classify, tokens[..n]);
      assert t.kind != MultilineComment;
      var none: seq<Entity> := [];
      assert none + none == none;
      if t.kind == Atrule {
        WalkStep(classify, tokens[..n], t, None);
        CommentFreeEmitsNothing(classify, t);
      } else {
        WalkStep(classify, tokens[..n], t, None);
        assert Visit(classify, t, None) == Ok(Frame(None, none));
      }
    }
  }

  /** A tree without comments documents nothing, whatever the classifier says. */
  lemma {:induction false} CommentFreeEmitsNothing(classify: Classifier, node: Node)
    requires CommentFree(node)
    ensures Extract(classify, node, None) == Ok([])
    decreases node, 1
  {
    CommentFreeWalkEmitsNothing(classify, node.children);
  }

  /** The children without the nodes of types the `switch` does not list. */
  function WithoutInert(tokens: seq<Node>): seq<Node>
    decreases |tokens|
  {
    if tokens == [] then []
    else WithoutInert(tokens[..|tokens| - 1]) + (if Inert(tokens[|tokens| - 1]) then [] else [tokens[|tokens| - 1]])
  }

  /** An inert child changes neither the pending comment nor the output. */
  lemma InertStep(classify: Classifier, r: Result<Frame, ParseError>, t: Node)
    requires Inert(t)
    ensures Step(classify, r, t) == r
  {
    if r.Ok? {
      assert Visit(classify, t, r.value.pending) == Ok(Frame(r.value.pending, []));
      assert r.value.emitted + [] == r.value.emitted;
    }
  }

  /** Interleaved children of unlisted types (whitespace among them) change neither the output nor the pending comment. */
  lemma {:induction false} InertChildrenIgnored(classify: Classifier, tokens: seq<Node>, c: Option<string>)
    ensures Walk(classify, WithoutInert(tokens), c) == Walk(classify, tokens, c)
    decreases |tokens|
  {
    if tokens != [] {
      var n := |tokens| - 1;
      var init := tokens[..n];
      var t := tokens[n];
      assert tokens == init + [t];
      InertChildrenIgnored(classify, init, c);
      WalkStep(classify, init, t, c);
      if Inert(t) {
        assert WithoutInert(tokens) == WithoutInert(init) + [];
        assert WithoutInert(init) + [] == WithoutInert(init);
        InertStep(classify, Walk(classify, init, c), t);
      } else {
        assert WithoutInert(tokens) == WithoutInert(init) + [t];
        WalkStep(classify, WithoutInert(init), t, c);
      }
    }
  }

  // ---------------------------------------------------------------------------
  // Callable parameters.

  function ParameterNamesOf(ps: seq<Parameter>): seq<string> {
    seq(|ps|, k requires 0 <= k < |ps| => ps[k].name)
  }

  predicate UniqueNames(ps: seq<Parameter>) {
    forall i, j :: 0 <= i < j < |ps| ==> ps[i].name != ps[j].name
  }

  /** The position of the first occurrence of `x` in `s`. */
  function FirstPosition(s: seq<string>, x: string): (r: nat)
    requires x in s
    ensures r < |s| && s[r] == x && x !in s[..r]
  {
    if s[0] == x then 0 else 1 + FirstPosition(s[1..], x)
  }

  lemma {:induction false} FirstPositionOfSnoc(s: seq<string>, y: string, x: string)
    requires x in s
    ensures FirstPosition(s + [y], x) == FirstPosition(s, x)
  {
    if s[0] != x {
      assert (s + [y])[1..] == s[1..] + [y];
      FirstPositionOfSnoc(s[1..], y, x);
    }
  }

  lemma FirstPositionOfNew(s: seq<string>, x: string)
    requires x !in s
    ensures FirstPosition(s + [x], x) == |s|
  {
    var p := FirstPosition(s + [x], x);
    assert forall k :: 0 <= k < |s| ==> (s + [x])[k] == s[k];
  }

  /** One name: a listed name changes nothing, a new one is appended without metadata. */
  lemma AddParameterListed(q: seq<Parameter>, x: string)
    ensures HasParameter(q, x) ==> AddParameter(q, x) == q
    ensures !HasParameter(q, x) ==> AddParameter(q, x) == q + [Parameter(x, NoMeta)]
    ensures forall m :: HasParameter(AddParameter(q, x), m) <==> HasParameter(q, m) || m == x
  {
    var r := AddParameter(q, x);
    forall m
      ensures HasParameter(r, m) <==> HasParameter(q, m) || m == x
    {
      if HasParameter(r, m) {
        var k :| 0 <= k < |r| && r[k].name == m;
        if k < |q| { assert q[k].name == m; }
      }
      if HasParameter(q, m) {
        var k :| 0 <= k < |q| && q[k].name == m;
        assert r[k].name == m;
      }
      if m == x && !HasParameter(q, x) { assert r[|q|].name == m; }
    }
  }

  /** Adding names one at a time is adding the last name to the result for the others. */
  lemma AddParametersSnoc(ps: seq<Parameter>, names: seq<string>, x: string)
    ensures AddParameters(ps, names + [x]) == AddParameter(AddParameters(ps, names), x)
  {
    assert (names + [x])[..|names|] == names;
  }

  /**
   * Adding argument names keeps the parameters already listed first and unchanged; the
   * added ones carry no metadata and are among the names but not among those listed.
   */
  lemma {:induction false} AddParametersExtends(ps: seq<Parameter>, names: seq<string>)
    ensures var r := AddParameters(ps, names);
      |ps| <= |r| && r[..|ps|] == ps &&
      forall k :: |ps| <= k < |r| ==> r[k].meta == NoMeta && r[k].name in names && !HasParameter(ps, r[k].name)
    decreases |names|
  {
    if names != [] {
      var n := |names| - 1;
      var prefix := names[..n];
      var x := names[n];
      assert names == prefix + [x];
      AddParametersExtends(ps, prefix);
      AddParametersSnoc(ps, prefix, x);
      var q := AddParameters(ps, prefix);
      AddParameterListed(q, x);
      if !HasParameter(q, x) {
        AddParametersNames(ps, prefix);
        assert AddParameters(ps, names)[..|ps|] == q[..|ps|];
      }
    }
  }

  /** A name is listed after adding the names exactly when it was listed before or is among them. */
  lemma {:induction false} AddParametersNames(ps: seq<Parameter>, names: seq<string>)
    ensures forall m :: HasParameter(AddParameters(ps, names), m) <==> HasParameter(ps, m) || m in names
    decreases |names|
  {
    if names != [] {
      var n := |names| - 1;
      var prefix := names[..n];
      var x := names[n];
      assert names == prefix + [x];
      AddParametersNames(ps, prefix);
      AddParametersSnoc(ps, prefix, x);
      AddParameterListed(AddParameters(ps, prefix), x);
    }
  }

  /** The added parameters come in the order in which their names are first seen. */
  lemma {:induction false} AddParametersOrder(ps: seq<Parameter>, names: seq<string>)
    ensures var r := AddParameters(ps, names);
      forall k, k' :: |ps| <= k < k' < |r| ==>
        r[k].name in names && r[k'].name in names &&
        FirstPosition(names, r[k].name) < FirstPosition(names, r[k'].name)
    decreases |names|
  {
    AddParametersExtends(ps, names);
    if names != [] {
      var n := |names| - 1;
      var prefix := names[..n];
      var x := names[n];
      assert names == prefix + [x];
      AddParametersOrder(ps, prefix);
      AddParametersExtends(ps, prefix);
      AddParametersSnoc(ps, prefix, x);
      var q := AddParameters(ps, prefix);
      AddParameterListed(q, x);
      forall k | |ps| <= k < |q|
        ensures FirstPosition(names, q[k].name) == FirstPosition(prefix, q[k].name) < |prefix|
      {
        FirstPositionOfSnoc(prefix, x, q[k].name);
      }
      if !HasParameter(q, x) {
        AddParametersNames(ps, prefix);
        assert x !in prefix;
        FirstPositionOfNew(prefix, x);
      }
    }
  }

  /** No name is added twice, so parameters with unique names keep unique names. */
  lemma {:induction false} AddParametersUnique(ps: seq<Parameter>, names: seq<string>)
    requires UniqueNames(ps)
    ensures UniqueNames(AddParameters(ps, names))
    decreases |names|
  {
    if names != [] {
      var n := |names| - 1;
      var prefix := names[..n];
      var x := names[n];
      assert names == prefix + [x];
      AddParametersUnique(ps, prefix);
      AddParametersSnoc(ps, prefix, x);
      var q := AddParameters(ps, prefix);
      AddParameterListed(q, x);
      if !HasParameter(q, x) {
        var r := q + [Parameter(x, NoMeta)];
        forall i, j | 0 <= i < j < |r| ensures r[i].name != r[j].name {
          if j == |q| {
            assert q[i].name != x;
          } else {
            assert r[i] == q[i] && r[j] == q[j];
          }
        }
      }
    }
  }
}
