/** The node graph as the compiler reads it: nodes, their typed input and output ports, and the
    connection state that each port records. A compile pass runs to completion on the calling
    thread without the graph changing, so the compiler sees the graph as one immutable value.

    Ports and nodes are identified by their position in `Graph.ports` and `Graph.nodes`; every
    enumeration the source does over a container of port or node pointers is taken in that order. */
module NodeGraph {
  import opened Wrappers
  import opened Text

  /** The ten data-type names of `NodeCompilerTypes`. */
  datatype DataType = Invalid | Float | Integer | Options | FloatVector | IntegerVector | String | Color | Reference | Bool

  /** The name the source uses for each data type. */
  function TypeName(t: DataType): string
  {
    match t
    case Invalid => "Invalid"
    case Float => "Float"
    case Integer => "Integer"
    case Options => "Options"
    case FloatVector => "FloatVector"
    case IntegerVector => "IntegerVector"
    case String => "String"
    case Color => "Color"
    case Reference => "Reference"
    case Bool => "Bool"
  }

  /** The vocabulary is exactly ten names and no two data types share one. */
  lemma TypeNamesDistinct(s: DataType, t: DataType)
    requires s != t
    ensures TypeName(s) != TypeName(t)
  {
  }

  datatype PortType = Input | Output
  datatype PortFlavor = Ordinary | Property

  type PortId = nat
  type NodeId = nat
  /** Identity of the property that a Property-flavoured port mirrors. */
  type PropertyId = nat

  /** One port. `connectedOutput` is what an input port records (InputPort::m_connected_output),
      `connections` what an output port records (OutputPort::m_connections); each is unused on
      the other kind of port. `address` is the text of the port object's address, of which the
      identifier uses the last five characters. `property` is only read on Property ports. */
  datatype Port = Port(
    portType: PortType,
    flavor: PortFlavor,
    node: NodeId,
    index: nat,
    portLabel: string,
    address: string,
    dataType: DataType,
    property: PropertyId,
    connectedOutput: Option<PortId>,
    connections: set<PortId>)

  /** A node's type (Node::type()). The vertex and fragment node types, which the GLSL backend
      singles out, are told apart from every other type, which is known by its name. */
  datatype NodeType = VertexNode | FragmentNode | OtherType(name: string)

  /** The type name: VertexNode::TYPE, FragmentNode::TYPE or the other type's own name. */
  function NodeTypeName(t: NodeType): string
  {
    match t
    case VertexNode => "VertexNode"
    case FragmentNode => "FragmentNode"
    case OtherType(name) => name
  }

  /** An other type does not borrow the name of the vertex or the fragment node type. */
  predicate NodeTypeValid(t: NodeType)
  {
    t.OtherType? ==> t.name != "VertexNode" && t.name != "FragmentNode"
  }

  /** Distinct valid node types have distinct names, so comparing names and comparing types agree. */
  lemma NodeTypeNameInjective(s: NodeType, t: NodeType)
    requires NodeTypeValid(s) && NodeTypeValid(t) && s != t
    ensures NodeTypeName(s) != NodeTypeName(t)
  {
    if !s.OtherType? && !t.OtherType? {
      assert NodeTypeName(s)[0] != NodeTypeName(t)[0];
    }
  }

  /** One node: its type and, for the vertex and fragment node types, the port the GLSL backend
      treats specially (the vertex node's position output, the fragment node's input). */
  datatype Node = Node(nodeType: NodeType, rolePort: PortId)

  datatype Graph = Graph(nodes: seq<Node>, ports: seq<Port>)

  /** AbstractPort::is_connected(): an input is connected when it records an output, an output
      when its connection set is non-empty. */
  predicate IsConnected(p: Port)
  {
    match p.portType
    case Input => p.connectedOutput.Some?
    case Output => p.connections != {}
  }

  /** The last `n` characters of `s`, or all of `s` when it is shorter (QString::right). */
  function Right(s: string, n: nat): (r: string)
    ensures |r| == if |s| <= n then |s| else n
    ensures r == s[|s| - |r|..]
  {
    if |s| <= n then s else s[|s| - n..]
  }

  /** The identifier a port gets in generated code (AbstractPort::uuid). */
  function Uuid(p: Port): string
  {
    (if p.portType == Input then "i_" else "o_") + p.portLabel + "_" + Right(p.address, 5)
  }

  /** An identifier starts with `i_` or `o_` by port type, then the label and an underscore. */
  lemma UuidShape(p: Port)
    ensures |Uuid(p)| >= |p.portLabel| + 3
    ensures Uuid(p)[..2] == (if p.portType == Input then "i_" else "o_")
    ensures Uuid(p)[2..|p.portLabel| + 2] == p.portLabel && Uuid(p)[|p.portLabel| + 2] == '_'
  {
  }

  /** Ports of different types, or whose address suffixes differ, never share an identifier. */
  lemma UuidDistinct(p: Port, q: Port)
    requires p.portType != q.portType
      || (|Right(p.address, 5)| == |Right(q.address, 5)| && Right(p.address, 5) != Right(q.address, 5))
    ensures Uuid(p) != Uuid(q)
  {
    if p.portType != q.portType {
      assert Uuid(p)[0] != Uuid(q)[0];
    } else {
      var a, b := Right(p.address, 5), Right(q.address, 5);
      var u, v := Uuid(p), Uuid(q);
      if u == v {
        assert u[|u| - |a|..] == a;
        assert v[|v| - |b|..] == b;
      }
    }
  }

  predicate StrictlyIncreasing(r: seq<nat>)
  {
    forall a, b :: 0 <= a < b < |r| ==> r[a] < r[b]
  }

  /** The selections of ports the source makes from a node or from the whole model. */
  datatype PortFilter =
    | OfNode(node: NodeId)                       // Node::ports()
    | OfNodeAndType(node: NodeId, t: PortType)   // Node::ports<InputPort>(), Node::ports<OutputPort>()
    | OfType(t: PortType)                        // NodeModel::ports<OutputPort>()
    | OrdinaryOutputsOf(node: NodeId)            // a node's outputs filtered to the Ordinary flavour

  predicate Matches(f: PortFilter, p: Port)
  {
    match f
    case OfNode(n) => p.node == n
    case OfNodeAndType(n, t) => p.node == n && p.portType == t
    case OfType(t) => p.portType == t
    case OrdinaryOutputsOf(n) => p.node == n && p.portType == Output && p.flavor == Ordinary
  }

  /** The ids of the ports that `f` selects, in graph order. */
  function Where(ps: seq<Port>, f: PortFilter): (r: seq<PortId>)
    ensures forall k :: 0 <= k < |r| ==> r[k] < |ps| && Matches(f, ps[r[k]])
    ensures forall i :: 0 <= i < |ps| && Matches(f, ps[i]) ==> i in r
    ensures StrictlyIncreasing(r)
  {
    if ps == [] then []
    else
      var front := Where(ps[..|ps| - 1], f);
      assert forall k :: 0 <= k < |front| ==> front[k] < |ps| - 1;
      front + (if Matches(f, ps[|ps| - 1]) then [|ps| - 1] else [])
  }

  /** Node::ports(): every port of node `n`. */
  function NodePorts(g: Graph, n: NodeId): seq<PortId>
  {
    Where(g.ports, OfNode(n))
  }

  /** Node::ports<InputPort>() and Node::ports<OutputPort>(). */
  function NodePortsOfType(g: Graph, n: NodeId, t: PortType): seq<PortId>
  {
    Where(g.ports, OfNodeAndType(n, t))
  }

  /** NodeModel::ports<OutputPort>(): every output port of the graph. */
  function OutputPorts(g: Graph): seq<PortId>
  {
    Where(g.ports, OfType(Output))
  }

  /** What the source relies on for its pointers to be valid: every connection points at a port
      of the graph, and every node's designated port exists; node types are named consistently. */
  predicate Wf(g: Graph)
  {
    && (forall i :: 0 <= i < |g.ports| && g.ports[i].connectedOutput.Some? ==>
          g.ports[i].connectedOutput.value < |g.ports|)
    && (forall n :: 0 <= n < |g.nodes| ==> g.nodes[n].rolePort < |g.ports| && NodeTypeValid(g.nodes[n].nodeType))
  }

  // ---------------------------------------------------------------------------------------------
  // Sorting ports by index (std::sort with `p1->index < p2->index`)

  function InsertByIndex(ps: seq<Port>, x: PortId, sorted: seq<PortId>): (r: seq<PortId>)
    requires x < |ps| && forall i :: 0 <= i < |sorted| ==> sorted[i] < |ps|
    ensures multiset(r) == multiset(sorted) + multiset{x}
    ensures forall i :: 0 <= i < |r| ==> r[i] < |ps|
  {
    if sorted == [] then [x]
    else if ps[x].index <= ps[sorted[0]].index then [x] + sorted
    else
      assert sorted == [sorted[0]] + sorted[1..];
      [sorted[0]] + InsertByIndex(ps, x, sorted[1..])
  }

  /** sort_ports: the ports ordered by index. Insertion keeps ports of equal index in their
      original order; std::sort leaves that order open, so stability is this model's choice. */
  function SortByIndex(ps: seq<Port>, ids: seq<PortId>): (r: seq<PortId>)
    requires forall i :: 0 <= i < |ids| ==> ids[i] < |ps|
    ensures multiset(r) == multiset(ids)
    ensures forall i :: 0 <= i < |r| ==> r[i] < |ps|
  {
    if ids == [] then []
    else
      assert ids == [ids[0]] + ids[1..];
      InsertByIndex(ps, ids[0], SortByIndex(ps, ids[1..]))
  }

  predicate SortedByIndex(ps: seq<Port>, r: seq<PortId>)
    requires forall i :: 0 <= i < |r| ==> r[i] < |ps|
  {
    forall a, b :: 0 <= a < b < |r| ==> ps[r[a]].index <= ps[r[b]].index
  }

  predicate IndexAtLeast(ps: seq<Port>, v: nat, r: seq<PortId>)
    requires forall i :: 0 <= i < |r| ==> r[i] < |ps|
  {
    forall i :: 0 <= i < |r| ==> v <= ps[r[i]].index
  }

  lemma {:induction false} InsertByIndexBound(ps: seq<Port>, v: nat, x: PortId, sorted: seq<PortId>)
    requires x < |ps| && forall i :: 0 <= i < |sorted| ==> sorted[i] < |ps|
    requires v <= ps[x].index && IndexAtLeast(ps, v, sorted)
    ensures IndexAtLeast(ps, v, InsertByIndex(ps, x, sorted))
  {
    if sorted != [] && ps[x].index > ps[sorted[0]].index {
      InsertByIndexBound(ps, v, x, sorted[1..]);
    }
  }

  lemma {:induction false} InsertByIndexSorted(ps: seq<Port>, x: PortId, sorted: seq<PortId>)
    requires x < |ps| && forall i :: 0 <= i < |sorted| ==> sorted[i] < |ps|
    requires SortedByIndex(ps, sorted)
    ensures SortedByIndex(ps, InsertByIndex(ps, x, sorted))
  {
    if sorted != [] && ps[x].index > ps[sorted[0]].index {
      var tail := sorted[1..];
      InsertByIndexSorted(ps, x, tail);
      InsertByIndexBound(ps, ps[sorted[0]].index, x, tail);
      var r' := InsertByIndex(ps, x, tail);
      var r := [sorted[0]] + r';
      assert r == InsertByIndex(ps, x, sorted);
      forall a, b | 0 <= a < b < |r| ensures ps[r[a]].index <= ps[r[b]].index {
        assert r[b] == r'[b - 1];
        if a > 0 {
          assert r[a] == r'[a - 1];
        }
      }
    }
  }

  /** Sorting yields the same ports, as often as before, in ascending index order. */
  lemma {:induction false} SortByIndexSorted(ps: seq<Port>, ids: seq<PortId>)
    requires forall i :: 0 <= i < |ids| ==> ids[i] < |ps|
    ensures SortedByIndex(ps, SortByIndex(ps, ids))
  {
    if ids != [] {
      SortByIndexSorted(ps, ids[1..]);
      InsertByIndexSorted(ps, ids[0], SortByIndex(ps, ids[1..]));
    }
  }
}
