/**
 * The values the message hub passes around: interned names (`FName`), signal
 * sources, type-erased parameters and the message body built for one dispatch.
 */
module HubTypes {

  /**
   * An interned name. `NoneName` is `NAME_None`; `Invalid` stands for a name
   * whose index does not refer to an entry of the name table (`!IsValid()`).
   * `FName` equality ignores case, so `text` is the name's case-folded
   * comparison key rather than its display spelling.
   */
  datatype Name = NoneName | Invalid | Named(text: string) {
    predicate IsValid() { !Invalid? }
    predicate IsNone() { NoneName? }
  }

  /** The emitting context of a message; `Global` is the null source. */
  datatype Source = Global | Object(id: nat)

  /** An `FGMPKey`: connection ids and sequence ids share this space; 0 is "none". */
  type Key = int

  /** One type-erased parameter: an address and the name of its type. */
  datatype Param = Param(addr: nat, typeName: Name)

  /** `FMessageBody`: what a dispatch hands to every handler it invokes. */
  datatype Body = Body(key: Name, source: Source, params: seq<Param>, sequenceId: Key)

  /** The type names of a parameter list, in order (`GMP_WITH_TYPENAME` builds). */
  function TypeNamesOf(params: seq<Param>): (names: seq<Name>)
    ensures |names| == |params|
    ensures forall i :: 0 <= i < |params| ==> names[i] == params[i].typeName
  {
    seq(|params|, i requires 0 <= i < |params| => params[i].typeName)
  }
}
