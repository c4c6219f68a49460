/**
 * The code the phase-4 parsers call but which is not part of this model: the item parser
 * (`ItemParser.getGuid`, `getTitle`, `getEnclosure`, `getDescription`, `getLink`, `getAuthor`,
 * `getImage`), the value helpers (`validRecipient` and the per-node conversion inside
 * `extractRecipients`), the numeric test of `extractOptionalFloatAttribute`, and `pubDateToDate`.
 * Each is a field of `Env`, so every property proved here holds whatever those functions do.
 */
module Collaborators {
  import opened Wrappers
  import opened Xml
  import opened Phase4Types

  datatype Env = Env(
    getGuid: XmlNode -> Option<string>,
    getTitle: XmlNode -> Option<string>,
    getEnclosure: XmlNode -> Option<Enclosure>,
    getDescription: XmlNode -> Option<string>,
    getLink: XmlNode -> Option<string>,
    getAuthor: XmlNode -> Option<string>,
    getImage: XmlNode -> Option<string>,
    validRecipient: XmlNode -> bool,
    recipientOf: XmlNode -> Recipient,
    isNumeric: string -> bool,
    pubDateToDate: string -> Date)

  /** `extractOptionalFloatAttribute(node, name)`: the attribute as a number, left out when it is absent
      or `parseFloat` does not give a number. */
  function FloatAttribute(env: Env, n: XmlNode, name: string): (r: Option<Float>)
    ensures r.Some? <==> name in n.attributes && env.isNumeric(n.attributes[name])
    ensures r.Some? ==> r.value == ParseFloat(n.attributes[name])
  {
    match GetAttribute(n, name)
    case Some(text) => if env.isNumeric(text) then Some(ParseFloat(text)) else None
    case None => None
  }
}
