/** Shared result types and the few text predicates the backend applies to identifiers. */
module Basics {
  datatype Option<+T> = None | Some(value: T)

  /** The reasons for which a call refuses its input; every one is an exception in the program. */
  datatype Error =
    | EmptyBatch
    | EmptyText
    | BlankText
    | Unregistered
    | ForeignOntology
    | AbstractEntity
    | NotUserContext
    | UnknownProperty
    | BadValue
    | MissingNode
    | MissingEdge
    | MissingEndpoint
    | BadEdge
    | UnsupportedAction
    | KeyReused
    | BadEvidence
    | Conflict
    | MissingParent
    | OwnParent
    | AlreadyExists
    | PropertyTypeChanged
    | InUse
    | LimitReached

  datatype Result<+T> = Ok(value: T) | Err(error: Error)

  /** The characters `str.strip` removes. */
  predicate IsSpace(c: char) {
    var n := c as int;
    || 0x09 <= n <= 0x0D
    || 0x1C <= n <= 0x20
    || n == 0x85 || n == 0xA0 || n == 0x1680
    || 0x2000 <= n <= 0x200A
    || n == 0x2028 || n == 0x2029 || n == 0x202F || n == 0x205F || n == 0x3000
  }

  /** Text that `_required_text` refuses: empty, or nothing but white space. */
  predicate Blank(s: string) {
    s == "" || (IsSpace(s[0]) && Blank(s[1..]))
  }

  function Reversed<T>(s: seq<T>): (r: seq<T>)
    ensures |r| == |s|
  {
    if s == [] then [] else Reversed(s[1..]) + [s[0]]
  }

  lemma {:induction false} ReversedSnoc<T>(s: seq<T>, x: T)
    ensures Reversed(s + [x]) == [x] + Reversed(s)
  {
    if s == [] {
      assert s + [x] == [x];
    } else {
      ReversedSnoc(s[1..], x);
      assert (s + [x])[1..] == s[1..] + [x];
    }
  }
}
