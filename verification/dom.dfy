/** Abstract records standing in for the browser objects both widget libraries touch. */
module Dom {

  /** A value that may be absent: a missing attribute, an undefined property. */
  datatype Option<T> = None | Some(value: T)
  {
    /** The value, or `fallback` when there is none. */
    function GetOr(fallback: T): T
    {
      match this
      case Some(v) => v
      case None => fallback
    }
  }

  /** An element as a record: its tag name, attribute map, class set, text content and ordered children. */
  datatype Element = Element(
    tag: string,
    attributes: map<string, string>,
    classes: set<string>,
    text: string,
    children: seq<Element>)

  /** An event dispatched on an element or on the window. */
  datatype DomEvent = DomEvent(name: string, bubbles: bool)

  /** What `document.createElement(tag)` returns: no attributes, no classes, no text, no children. */
  function NewElement(tag: string): Element
  {
    Element(tag, map[], {}, "", [])
  }
}
