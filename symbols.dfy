/** Interned symbols, as far as alias information uses them. A symbol is
    identified by its namespace and its unqualified name: two symbols made
    from the same text are the same value. */
module Symbols {

  datatype Symbol = Symbol(ns: string, name: string)

  /** The text a symbol is made from: "namespace::name". */
  function QualString(s: Symbol): string
  {
    s.ns + "::" + s.name
  }

  /** The name without its namespace: what the renderer writes for a token. */
  function UnqualString(s: Symbol): string
  {
    s.name
  }

  /** The reserved alias set that may alias anything. Being a function of no
      arguments, it yields the same symbol at every call. */
  function Wildcard(): (w: Symbol)
    ensures QualString(w) == "alias::*"
    ensures UnqualString(w) == "*"
  {
    Symbol("alias", "*")
  }
}
