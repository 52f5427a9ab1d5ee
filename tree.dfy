/** The untyped configuration tree that templates are read from and that
    mappings are built as: string-keyed maps, lists and scalars. */
module Tree {

  datatype Node =
    | Map(entries: map<string, Node>)
    | List(items: seq<Node>)
    | Str(s: string)
    | Num(n: int)
    | Bool(b: bool)
    | Null
}
