/** JSON values as the parser library keeps them in memory: a table of array and object nodes
    whose slots hold scalars or refer to other nodes. Node 0 is the root. */
module JsonDocument {
  import opened Wrappers

  datatype Value = JNull | JInteger(value: int) | JReal(bits: int) | JString(text: string) | JNode(id: nat)

  datatype Node = JArray(elems: seq<Value>) | JObject(members: map<string, Value>)

  type Doc = seq<Node>

  datatype Position = Element(index: nat) | Member(name: string)

  function At(node: Node, pos: Position): Option<Value>
  {
    match (node, pos)
    case (JArray(elems), Element(i)) => if i < |elems| then Some(elems[i]) else None
    case (JObject(members), Member(name)) => if name in members then Some(members[name]) else None
    case _ => None
  }

  /** owner tells for each node the one slot that refers to it; owners come before what they own. */
  ghost predicate OwnedBy(doc: Doc, owner: map<nat, (nat, Position)>)
  {
    forall n: nat, pos | n < |doc| && At(doc[n], pos).Some? && At(doc[n], pos).value.JNode? ::
      var c := At(doc[n], pos).value.id;
      n < c < |doc| && c in owner && owner[c] == (n, pos)
  }

  /** Array indices fit a 32-bit int. */
  ghost predicate Fits(doc: Doc)
  {
    forall n | 0 <= n < |doc| && doc[n].JArray? :: |doc[n].elems| <= 0x7FFF_FFFF
  }

  const REFERENCE := "__reference|"
  const META_INFO := "__metaInfo"
  const META_INFO_LEGACY := "__formData"
  const TYPE_NAME := "typeName"
}
