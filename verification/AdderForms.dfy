/** Form trees, as both sides of the indentation syntax see them. */
module AdderForms {
  /** An atom keeps its raw text (a symbol's name, or a string literal with its quotes). */
  datatype Form = Atom(text: string) | List(kids: seq<Form>)

  function Last<T>(s: seq<T>): T
    requires s != []
  {
    s[|s| - 1]
  }

  function Front<T>(s: seq<T>): seq<T>
    requires s != []
  {
    s[..|s| - 1]
  }
}
