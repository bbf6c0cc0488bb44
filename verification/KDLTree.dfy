/** The KDL tree of internal/kdl/ast.go, without spans. */
module KDLTree {
  import opened Options

  /** A float is kept as the binary64 number it denotes. */
  datatype Value = KString(s: string) | KInt(n: int) | KFloat(r: real) | KBool(b: bool) | KNull

  datatype Property = Property(name: string, value: Value)

  datatype Node = Node(name: string, arguments: seq<Value>, properties: seq<Property>, children: seq<Node>) {

    /** The last property of that name. */
    function Get(name: string): Option<Value> {
      Find(properties, name)
    }

    function GetString(name: string): Option<string> {
      var v :- Get(name);
      if v.KString? then Some(v.s) else None
    }

    function GetInt(name: string): Option<int> {
      var v :- Get(name);
      if v.KInt? then Some(v.n) else None
    }

    function StringArgument(i: nat): Option<string> {
      if i < |arguments| && arguments[i].KString? then Some(arguments[i].s) else None
    }
  }

  function Find(properties: seq<Property>, name: string): (r: Option<Value>)
    ensures r.Some? <==> exists p | p in properties :: p.name == name
    ensures r.Some? ==> Property(name, r.value) in properties
  {
    if properties == [] then None
    else if properties[|properties| - 1].name == name then Some(properties[|properties| - 1].value)
    else Find(properties[..|properties| - 1], name)
  }

  function Named(nodes: seq<Node>, name: string): (r: seq<Node>)
    ensures forall n | n in r :: n.name == name && n in nodes
  {
    if nodes == [] then [] else (if nodes[0].name == name then [nodes[0]] else []) + Named(nodes[1..], name)
  }
}
