/** Node identifiers, as the client code compares them, and the ids it names. */
module NodeIds {

  datatype NodeId =
    | Numeric(ns: nat, value: nat)
    | Text(ns: nat, text: string)
  {
    predicate IsNull() {
      && ns == 0
      && match this
         case Numeric(_, v) => v == 0
         case Text(_, t) => t == ""
    }
  }

  const NULL_ID := Numeric(0, 0)
  const HAS_SUBTYPE := Numeric(0, 45)
}
