/** The cached document model: a section payload holds elements, an element
    holds titled subsections of content lines. */
module Document {

  /** `{"title": ..., "content": [...]}` */
  datatype Subsection = Subsection(title: string, content: seq<string>)

  /** `{"name": ..., "description": ..., "documentation": [...]}` */
  datatype Element = Element(name: string, description: string, documentation: seq<Subsection>)

  /** What a section fetch returns and a section file holds: either a JSON
      object without an `elements` key (`{}` in the source), or
      `{"type": "documentation_section", "section": ..., "elements": [...]}`. */
  datatype Payload = Empty | DocSection(section: string, elements: seq<Element>)

  /** `len(payload.get('elements', []))` */
  function ElementCount(p: Payload): nat {
    match p
    case Empty => 0
    case DocSection(_, elements) => |elements|
  }
}
