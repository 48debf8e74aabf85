/**
 * Documentation entities: what the external doc-block classifier drafts from one
 * comment, and what the extractor emits once it has named and tagged a draft.
 */
module Documentation {

  /** The content types of the framework that this model tells apart. */
  datatype ContentType = SassContent | OtherContentType(name: string)

  /** The content kinds of the framework that this model tells apart. */
  datatype ContentKind = CssKind | OtherContentKind(name: string)

  /** Whatever else the classifier read from a comment's tags (descriptions, types, ...). */
  type Meta = string

  /** What a parameter created from an argument list carries besides its name. */
  const NoMeta: Meta := ""

  datatype Parameter = Parameter(name: string, meta: Meta)

  datatype Doc = Doc(name: string, contentType: ContentType, contentKind: ContentKind, meta: Meta)

  /**
   * The classifier's verdict on one comment: a draft of one of the three documented
   * kinds, any other documentation (`OtherDraft`), or a rejection (it throws).
   * A callable draft may already list parameters taken from the comment's tags.
   */
  datatype Draft =
    | VariableDraft(doc: Doc)
    | ClassDraft(doc: Doc)
    | CallableDraft(doc: Doc, parameters: seq<Parameter>)
    | OtherDraft
    | Rejected

  type Classifier = string -> Draft

  datatype Entity =
    | VariableEntity(doc: Doc)
    | ClassEntity(doc: Doc)
    | CallableEntity(doc: Doc, parameters: seq<Parameter>)

  /** Sets the name and the stylesheet content type and kind on a draft's documentation. */
  function Tag(doc: Doc, name: string): Doc {
    doc.(name := name, contentType := SassContent, contentKind := CssKind)
  }

  predicate IsTagged(e: Entity) {
    e.doc.contentType == SassContent && e.doc.contentKind == CssKind
  }
}
