/** The Text value a layout shows: a plain string or an attributed string. */
module Texts {

  /** One styling run of an attributed string; inert in this model. */
  datatype AttributeRun = AttributeRun(key: string, value: string, location: nat, length: nat)

  /** Text.unattributed(String) or Text.attributed(NSAttributedString). */
  datatype Text =
    | Unattributed(content: string)
    | Attributed(content: string, attributes: seq<AttributeRun>)
  {
    predicate IsEmpty() {
      content == ""
    }

    /**
     * The same variant with its characters replaced by `s`; an attributed text
     * keeps its attributes (a mutable copy whose string is set).
     */
    function WithContent(s: string): (r: Text)
      ensures r.content == s
      ensures r.Unattributed? <==> Unattributed?
      ensures Attributed? ==> r.attributes == attributes
    {
      match this
      case Unattributed(_) => Unattributed(s)
      case Attributed(_, attrs) => Attributed(s, attrs)
    }
  }
}
