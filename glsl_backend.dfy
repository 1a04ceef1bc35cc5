/** The GLSL backend of the node compiler: what each stage appends for a given graph (as
    functions), the properties of that text (as lemmas), and the backend object whose stage
    methods build the lines step by step (class NodeCompilerGlsl). */
module GlslBackend {
  import opened Wrappers
  import opened Text
  import opened NodeGraph
  import opened NodeCompiler

  /** The fragment shader's output variable. */
  const OutputVariableName: string := "out_color"
  /** The line that opens the shader's main function. */
  const MainOpen: string := "void main() {"
  const MainClose: string := "}"

  /** The data-type names translate_type maps, and the GLSL types they map to. */
  const MappedTypeNames: set<string> :=
    {"Color", "Reference", "Bool", "Float", "Integer", "FloatVector", "IntegerVector", "Options"}
  const GlslTypeNames: set<string> := {"vec4", "uint", "bool", "float", "int", "vec2", "ivec2"}

  /** NodeCompilerGLSL::translate_type: the GLSL type of a data-type name; a name outside the
      table yields the marker `INVALID[<name>]`, which is no GLSL type. */
  function TranslateType(name: string): (r: string)
    ensures r in GlslTypeNames <==> name in MappedTypeNames
    ensures name !in MappedTypeNames ==> r == "INVALID[" + name + "]"
  {
    var invalid := "INVALID[" + name + "]";
    assert invalid[0] == 'I';
    if name == "Color" then "vec4"
    else if name == "Reference" then "uint"
    else if name == "Bool" then "bool"
    else if name == "Float" then "float"
    else if name == "Integer" then "int"
    else if name == "FloatVector" then "vec2"
    else if name == "IntegerVector" then "ivec2"
    else if name == "Options" then "int"
    else invalid
  }

  /** The translation of every data type: eight map to GLSL types, String and Invalid do not. */
  lemma TranslateTypeTable()
    ensures TranslateType(TypeName(Color)) == "vec4"
    ensures TranslateType(TypeName(Reference)) == "uint"
    ensures TranslateType(TypeName(Bool)) == "bool"
    ensures TranslateType(TypeName(Float)) == "float"
    ensures TranslateType(TypeName(Integer)) == "int"
    ensures TranslateType(TypeName(FloatVector)) == "vec2"
    ensures TranslateType(TypeName(IntegerVector)) == "ivec2"
    ensures TranslateType(TypeName(Options)) == "int"
    ensures TranslateType(TypeName(String)) == "INVALID[String]"
    ensures TranslateType(TypeName(Invalid)) == "INVALID[Invalid]"
  {
  }

  /** translate_type applied to a port's data type, stated per data type. */
  function GlslType(t: DataType): string
  {
    match t
    case Color => "vec4"
    case Reference => "uint"
    case Bool => "bool"
    case Float => "float"
    case Integer => "int"
    case FloatVector => "vec2"
    case IntegerVector => "ivec2"
    case Options => "int"
    case String => "INVALID[String]"
    case Invalid => "INVALID[Invalid]"
  }

  /** Translating a data type's name agrees with the per-type table. */
  lemma GlslTypeAgrees(t: DataType)
    ensures GlslType(t) == TranslateType(TypeName(t))
  {
  }

  /** The GLSL type of a port's data type (translate_type(port.data_type())). */
  function PortTypeName(p: Port): string
  {
    GlslType(p.dataType)
  }

  /** format_connection: `<type of lhs> <lhs id> = <rhs id>;`. */
  function FormatConnection(lhs: Port, rhs: Port): string
  {
    PortTypeName(lhs) + " " + Uuid(lhs) + " = " + Uuid(rhs) + ";"
  }

  // ---------------------------------------------------------------------------------------------
  // Siblings: the port of the opposite type that mirrors the same property on the same node

  predicate SiblingOf(g: Graph, p: PortId, c: PortId)
    requires p < |g.ports| && c < |g.ports|
  {
    && g.ports[c].flavor == g.ports[p].flavor
    && g.ports[c].portType != g.ports[p].portType
    && g.ports[c].property == g.ports[p].property
  }

  /** The position of the first candidate that is a sibling of `p` (|cands| when there is none). */
  function FirstSiblingAt(g: Graph, p: PortId, cands: seq<PortId>): (k: nat)
    requires p < |g.ports| && forall i :: 0 <= i < |cands| ==> cands[i] < |g.ports|
    ensures k <= |cands|
    ensures k < |cands| ==> SiblingOf(g, p, cands[k])
    ensures forall j :: 0 <= j < k ==> !SiblingOf(g, p, cands[j])
  {
    if cands == [] then 0
    else if SiblingOf(g, p, cands[0]) then 0
    else
      var k := 1 + FirstSiblingAt(g, p, cands[1..]);
      assert forall j :: 1 <= j < |cands| ==> cands[j] == cands[1..][j - 1];
      k
  }

  /** get_sibling: none unless `p` is a Property port; otherwise the first port of its node, in
      node order, that is a Property port of the other type mirroring the same property. */
  function Sibling(g: Graph, p: PortId): (r: Option<PortId>)
    requires p < |g.ports|
    ensures r.Some? ==> r.value < |g.ports|
  {
    if g.ports[p].flavor != Property then None
    else
      var cands := NodePorts(g, g.ports[p].node);
      var k := FirstSiblingAt(g, p, cands);
      if k < |cands| then Some(cands[k]) else None
  }

  /** What a sibling is, both ways: it lives on the same node, is a Property port of the other type
      with the same property, and no earlier port of the graph qualifies; there is none exactly
      when `p` is no Property port or no port of its node qualifies. */
  lemma SiblingSpec(g: Graph, p: PortId)
    requires p < |g.ports|
    ensures Sibling(g, p).Some? ==>
      var s := Sibling(g, p).value;
      && g.ports[s].node == g.ports[p].node
      && g.ports[s].flavor == Property && g.ports[p].flavor == Property
      && g.ports[s].portType != g.ports[p].portType
      && g.ports[s].property == g.ports[p].property
      && forall c :: 0 <= c < s && g.ports[c].node == g.ports[p].node ==> !SiblingOf(g, p, c)
    ensures Sibling(g, p).None? <==>
      (g.ports[p].flavor != Property
       || forall c :: 0 <= c < |g.ports| && g.ports[c].node == g.ports[p].node ==> !SiblingOf(g, p, c))
  {
    if g.ports[p].flavor == Property {
      var cands := NodePorts(g, g.ports[p].node);
      var k := FirstSiblingAt(g, p, cands);
      if k < |cands| {
        assert Sibling(g, p) == Some(cands[k]);
        FirstSiblingEarliest(g, p, cands, k);
      } else {
        assert Sibling(g, p) == None;
        NoSiblingOnNode(g, p, cands);
      }
    }
  }

  /** The first qualifying candidate of the node is on the node, and no port before it qualifies. */
  lemma FirstSiblingEarliest(g: Graph, p: PortId, cands: seq<PortId>, k: nat)
    requires p < |g.ports| && cands == NodePorts(g, g.ports[p].node)
    requires k == FirstSiblingAt(g, p, cands) && k < |cands|
    ensures g.ports[cands[k]].node == g.ports[p].node
    ensures forall c :: 0 <= c < cands[k] && g.ports[c].node == g.ports[p].node ==> !SiblingOf(g, p, c)
  {
    assert Matches(OfNode(g.ports[p].node), g.ports[cands[k]]);
    assert forall b :: k <= b < |cands| ==> cands[k] <= cands[b];
    forall c | 0 <= c < cands[k] && g.ports[c].node == g.ports[p].node ensures !SiblingOf(g, p, c) {
      var j :| 0 <= j < |cands| && cands[j] == c;
      assert j < k;
    }
  }

  /** Without a qualifying candidate no port of the node qualifies. */
  lemma NoSiblingOnNode(g: Graph, p: PortId, cands: seq<PortId>)
    requires p < |g.ports| && cands == NodePorts(g, g.ports[p].node)
    requires FirstSiblingAt(g, p, cands) == |cands|
    ensures forall c :: 0 <= c < |g.ports| && g.ports[c].node == g.ports[p].node ==> !SiblingOf(g, p, c)
  {
    forall c | 0 <= c < |g.ports| && g.ports[c].node == g.ports[p].node ensures !SiblingOf(g, p, c) {
      var j :| 0 <= j < |cands| && cands[j] == c;
    }
  }

  /** get_sibling, written as the loop over the node's ports that the source runs. */
  method GetSibling(g: Graph, p: PortId) returns (r: Option<PortId>)
    requires p < |g.ports|
    ensures r == Sibling(g, p)
  {
    if g.ports[p].flavor != Property {
      return None;
    }
    var cands := NodePorts(g, g.ports[p].node);
    ghost var k := FirstSiblingAt(g, p, cands);
    var i := 0;
    while i < |cands|
      invariant 0 <= i <= k
    {
      var c := cands[i];
      if g.ports[c].flavor == g.ports[p].flavor && g.ports[c].portType != g.ports[p].portType {
        if g.ports[c].property == g.ports[p].property {
          return Some(c);
        }
      }
      i := i + 1;
    }
    return None;
  }

  // ---------------------------------------------------------------------------------------------
  // Header: the fixed preamble and one uniform per Property output whose value is not forwarded

  /** A Property output port whose sibling is missing or unconnected becomes a uniform. */
  predicate IsUniform(g: Graph, o: PortId)
  {
    && o < |g.ports|
    && g.ports[o].flavor == Property
    && g.ports[o].portType == Output
    && match Sibling(g, o)
       case None => true
       case Some(s) => !IsConnected(g.ports[s])
  }

  /** A Property output port whose sibling exists and is connected forwards the sibling's value. */
  predicate Forwarded(g: Graph, o: PortId)
    requires o < |g.ports|
  {
    && g.ports[o].flavor == Property
    && match Sibling(g, o)
       case None => false
       case Some(s) => IsConnected(g.ports[s])
  }

  /** Every Property output port is either a uniform or forwards its sibling, never both. */
  lemma UniformOrForwarded(g: Graph, o: PortId)
    requires o < |g.ports| && g.ports[o].flavor == Property && g.ports[o].portType == Output
    ensures IsUniform(g, o) <==> !Forwarded(g, o)
  {
  }

  function UniformLine(p: Port): string
  {
    "uniform " + PortTypeName(p) + " " + Uuid(p) + ";"
  }

  function Preamble(vertexPositionName: string): seq<string>
  {
    ["#version 330", "varying vec2 " + vertexPositionName + ";", "out vec4 " + OutputVariableName + ";"]
  }

  /** The uniform declarations for the ports `ids`, in order. */
  function UniformLines(g: Graph, ids: seq<PortId>): seq<string>
    requires forall k :: 0 <= k < |ids| ==> ids[k] < |g.ports|
  {
    if ids == [] then []
    else
      var o := ids[|ids| - 1];
      UniformLines(g, ids[..|ids| - 1]) + (if IsUniform(g, o) then [UniformLine(g.ports[o])] else [])
  }

  function UniformSet(g: Graph, ids: seq<PortId>): set<PortId>
  {
    set o | o in ids && IsUniform(g, o)
  }

  /** m_uniform_ports after the header: every uniform port of the graph. */
  function UniformPortSet(g: Graph): set<PortId>
  {
    set o | 0 <= o < |g.ports| && IsUniform(g, o)
  }

  /** generate_header's lines. */
  function HeaderLines(g: Graph, vertexPositionName: string): seq<string>
  {
    Preamble(vertexPositionName) + UniformLines(g, OutputPorts(g))
  }

  lemma UniformStep(g: Graph, ids: seq<PortId>, o: PortId)
    requires o < |g.ports| && forall k :: 0 <= k < |ids| ==> ids[k] < |g.ports|
    ensures UniformLines(g, ids + [o]) ==
      UniformLines(g, ids) + (if IsUniform(g, o) then [UniformLine(g.ports[o])] else [])
    ensures UniformSet(g, ids + [o]) == UniformSet(g, ids) + (if IsUniform(g, o) then {o} else {})
  {
    assert (ids + [o])[..|ids|] == ids;
  }

  /** The uniform ports found among the graph's output ports are all of them. */
  lemma UniformSetOfOutputs(g: Graph)
    ensures UniformSet(g, OutputPorts(g)) == UniformPortSet(g)
  {
  }

  /** Over distinct ports there is exactly one uniform declaration per uniform port, and every
      declaration belongs to one. */
  predicate UniformLinesMatch(g: Graph, ids: seq<PortId>)
    requires forall k :: 0 <= k < |ids| ==> ids[k] < |g.ports|
  {
    && |UniformLines(g, ids)| == |UniformSet(g, ids)|
    && (forall o :: o in UniformSet(g, ids) ==> UniformLine(g.ports[o]) in UniformLines(g, ids))
    && (forall l :: l in UniformLines(g, ids) ==>
          exists o :: o in UniformSet(g, ids) && l == UniformLine(g.ports[o]))
  }

  /** Adding a port not seen before keeps the declarations matched with the uniform ports. */
  lemma UniformMatchStep(g: Graph, front: seq<PortId>, o: PortId)
    requires o < |g.ports| && forall k :: 0 <= k < |front| ==> front[k] < |g.ports|
    requires o !in front && UniformLinesMatch(g, front)
    ensures UniformLinesMatch(g, front + [o])
  {
    UniformStep(g, front, o);
    var lines := UniformLines(g, front);
    var us := UniformSet(g, front);
    if IsUniform(g, o) {
      assert o !in us;
      UniformMatchAdd(g, lines, us, o);
    }
  }

  /** One more declaration for one more port keeps the two matched. */
  lemma UniformMatchAdd(g: Graph, lines: seq<string>, us: set<PortId>, o: PortId)
    requires o < |g.ports| && o !in us && forall u :: u in us ==> u < |g.ports|
    requires |lines| == |us|
    requires forall u :: u in us ==> UniformLine(g.ports[u]) in lines
    requires forall l :: l in lines ==> exists u :: u in us && l == UniformLine(g.ports[u])
    ensures |lines + [UniformLine(g.ports[o])]| == |us + {o}|
    ensures forall u :: u in us + {o} ==> UniformLine(g.ports[u]) in lines + [UniformLine(g.ports[o])]
    ensures forall l :: l in lines + [UniformLine(g.ports[o])] ==>
      exists u :: u in us + {o} && l == UniformLine(g.ports[u])
  {
    var line := UniformLine(g.ports[o]);
    forall l | l in lines + [line] ensures exists u :: u in us + {o} && l == UniformLine(g.ports[u]) {
      if l !in lines {
        assert l == line;
      }
    }
  }

  lemma {:induction false} UniformLinesSpec(g: Graph, ids: seq<PortId>)
    requires forall k :: 0 <= k < |ids| ==> ids[k] < |g.ports|
    requires StrictlyIncreasing(ids)
    ensures UniformLinesMatch(g, ids)
  {
    if ids != [] {
      var front := ids[..|ids| - 1];
      var o := ids[|ids| - 1];
      assert ids == front + [o];
      forall k | 0 <= k < |front| ensures front[k] != o {
        assert front[k] == ids[k];
      }
      UniformLinesSpec(g, front);
      UniformMatchStep(g, front, o);
    }
  }

  /** The header is the three preamble lines followed by one declaration per uniform port. */
  lemma HeaderSpec(g: Graph, vertexPositionName: string)
    ensures HeaderLines(g, vertexPositionName)[..3] == Preamble(vertexPositionName)
    ensures |HeaderLines(g, vertexPositionName)| == 3 + |UniformPortSet(g)|
    ensures forall o :: o in UniformPortSet(g) ==> UniformLine(g.ports[o]) in HeaderLines(g, vertexPositionName)[3..]
    ensures forall l :: l in HeaderLines(g, vertexPositionName)[3..] ==>
      exists o :: o in UniformPortSet(g) && l == UniformLine(g.ports[o])
  {
    UniformLinesSpec(g, OutputPorts(g));
    UniformSetOfOutputs(g);
    assert HeaderLines(g, vertexPositionName)[3..] == UniformLines(g, OutputPorts(g));
  }

  // ---------------------------------------------------------------------------------------------
  // One node's statement

  /** The argument passed for input `ip`: an unconnected Property input with a sibling passes the
      sibling output's identifier, every other input its own. */
  function ArgName(g: Graph, ip: PortId): (r: string)
    requires ip < |g.ports|
    ensures !IsConnected(g.ports[ip]) && Sibling(g, ip).Some? ==> r == Uuid(g.ports[Sibling(g, ip).value])
    ensures IsConnected(g.ports[ip]) || Sibling(g, ip).None? ==> r == Uuid(g.ports[ip])
  {
    if !IsConnected(g.ports[ip]) && g.ports[ip].flavor == Property then
      match Sibling(g, ip)
      case Some(s) => Uuid(g.ports[s])
      case None => Uuid(g.ports[ip])
    else Uuid(g.ports[ip])
  }

  /** The node's inputs sorted by index. */
  function SortedInputs(g: Graph, n: NodeId): (r: seq<PortId>)
    ensures forall k :: 0 <= k < |r| ==> r[k] < |g.ports|
  {
    SortByIndex(g.ports, NodePortsOfType(g, n, Input))
  }

  /** The call arguments: one per input, in index order. */
  function CallArgs(g: Graph, n: NodeId): (r: seq<string>)
    ensures |r| == |SortedInputs(g, n)|
    ensures forall k :: 0 <= k < |r| ==> r[k] == ArgName(g, SortedInputs(g, n)[k])
  {
    var ips := SortedInputs(g, n);
    seq(|ips|, k requires 0 <= k < |ips| => ArgName(g, ips[k]))
  }

  /** The node's Ordinary output ports sorted by index. */
  function SortedOrdinaryOutputs(g: Graph, n: NodeId): (r: seq<PortId>)
    ensures forall k :: 0 <= k < |r| ==> r[k] < |g.ports|
  {
    SortByIndex(g.ports, Where(g.ports, OrdinaryOutputsOf(n)))
  }

  /** `<type> <id> = <vertex position>;`: the vertex node's position output. */
  function PositionLine(p: Port, vertexPositionName: string): string
  {
    PortTypeName(p) + " " + Uuid(p) + " = " + vertexPositionName + ";"
  }

  /** `<type> <id> = <node type>_<i>(<args>);`: output `i` of any other node. */
  function CallLine(p: Port, nodeType: string, i: nat, args: seq<string>): string
  {
    PortTypeName(p) + " " + Uuid(p) + " = " + nodeType + "_" + NatToString(i) + "(" + Join(args, ", ") + ");"
  }

  /** What output `o`, at position `i` of the sorted outputs, contributes. */
  function OutputLine(g: Graph, n: NodeId, vertexPositionName: string, args: seq<string>, o: PortId, i: nat): seq<string>
    requires n < |g.nodes| && o < |g.ports|
  {
    if g.nodes[n].nodeType == VertexNode then
      if o == g.nodes[n].rolePort then [PositionLine(g.ports[o], vertexPositionName)] else []
    else [CallLine(g.ports[o], NodeTypeName(g.nodes[n].nodeType), i, args)]
  }

  /** The lines of the sorted outputs `outs`. */
  function OutputLines(g: Graph, n: NodeId, vertexPositionName: string, args: seq<string>, outs: seq<PortId>): seq<string>
    requires n < |g.nodes| && forall k :: 0 <= k < |outs| ==> outs[k] < |g.ports|
  {
    if outs == [] then []
    else
      var i := |outs| - 1;
      OutputLines(g, n, vertexPositionName, args, outs[..i]) + OutputLine(g, n, vertexPositionName, args, outs[i], i)
  }

  lemma OutputLinesStep(g: Graph, n: NodeId, vertexPositionName: string, args: seq<string>, outs: seq<PortId>, i: nat)
    requires n < |g.nodes| && forall k :: 0 <= k < |outs| ==> outs[k] < |g.ports|
    requires i < |outs|
    ensures OutputLines(g, n, vertexPositionName, args, outs[..i + 1])
      == OutputLines(g, n, vertexPositionName, args, outs[..i]) + OutputLine(g, n, vertexPositionName, args, outs[i], i)
  {
    assert outs[..i + 1][..i] == outs[..i];
  }

  /** For a node other than the vertex node, the k-th line calls the node type's k-th function
      and assigns the k-th output. */
  lemma CallLines(g: Graph, n: NodeId, vertexPositionName: string, args: seq<string>, outs: seq<PortId>)
    requires n < |g.nodes| && forall k :: 0 <= k < |outs| ==> outs[k] < |g.ports|
    requires g.nodes[n].nodeType != VertexNode
    ensures |OutputLines(g, n, vertexPositionName, args, outs)| == |outs|
    ensures forall k {:trigger OutputLines(g, n, vertexPositionName, args, outs)[k]} :: 0 <= k < |outs| ==>
      OutputLines(g, n, vertexPositionName, args, outs)[k] == CallLine(g.ports[outs[k]], NodeTypeName(g.nodes[n].nodeType), k, args)
  {
    CallLinesLength(g, n, vertexPositionName, args, outs);
    forall k | 0 <= k < |outs|
      ensures OutputLines(g, n, vertexPositionName, args, outs)[k] == CallLine(g.ports[outs[k]], NodeTypeName(g.nodes[n].nodeType), k, args)
    {
      CallLineAt(g, n, vertexPositionName, args, outs, k, outs[k]);
    }
  }

  /** Every output of a node other than the vertex node contributes one line. */
  lemma {:induction false} CallLinesLength(g: Graph, n: NodeId, vertexPositionName: string, args: seq<string>, outs: seq<PortId>)
    requires n < |g.nodes| && forall k :: 0 <= k < |outs| ==> outs[k] < |g.ports|
    requires g.nodes[n].nodeType != VertexNode
    ensures |OutputLines(g, n, vertexPositionName, args, outs)| == |outs|
  {
    if outs != [] {
      CallLinesLength(g, n, vertexPositionName, args, outs[..|outs| - 1]);
    }
  }

  /** The line of the output at position `k`. */
  lemma {:induction false} CallLineAt(g: Graph, n: NodeId, vertexPositionName: string, args: seq<string>, outs: seq<PortId>, k: nat, o: PortId)
    requires n < |g.nodes| && forall j :: 0 <= j < |outs| ==> outs[j] < |g.ports|
    requires g.nodes[n].nodeType != VertexNode && k < |outs| && outs[k] == o
    ensures k < |OutputLines(g, n, vertexPositionName, args, outs)|
    ensures OutputLines(g, n, vertexPositionName, args, outs)[k] == CallLine(g.ports[o], NodeTypeName(g.nodes[n].nodeType), k, args)
  {
    var i := |outs| - 1;
    var front := outs[..i];
    CallLinesLength(g, n, vertexPositionName, args, front);
    var previous := OutputLines(g, n, vertexPositionName, args, front);
    var last := CallLine(g.ports[outs[i]], NodeTypeName(g.nodes[n].nodeType), i, args);
    assert OutputLines(g, n, vertexPositionName, args, outs) == previous + [last];
    if k < i {
      assert front[k] == o;
      CallLineAt(g, n, vertexPositionName, args, front, k, o);
      SnocIndex(OutputLines(g, n, vertexPositionName, args, outs), previous, last, k);
    } else {
      SnocIndex(OutputLines(g, n, vertexPositionName, args, outs), previous, last, k);
    }
  }

  /** For the vertex node, the only line is the position alias, once per occurrence of the
      position port among the outputs. */
  lemma {:induction false} VertexLines(g: Graph, n: NodeId, vertexPositionName: string, args: seq<string>, outs: seq<PortId>)
    requires n < |g.nodes| && forall k :: 0 <= k < |outs| ==> outs[k] < |g.ports|
    requires g.nodes[n].nodeType == VertexNode
    ensures |OutputLines(g, n, vertexPositionName, args, outs)| == multiset(outs)[g.nodes[n].rolePort]
    ensures forall l :: l in OutputLines(g, n, vertexPositionName, args, outs) ==>
      l == PositionLine(g.ports[g.nodes[n].rolePort], vertexPositionName)
  {
    if outs != [] {
      var front := outs[..|outs| - 1];
      var last := outs[|outs| - 1];
      VertexLines(g, n, vertexPositionName, args, front);
      assert outs == front + [last];
      assert multiset(outs) == multiset(front) + multiset{last};
      assert OutputLines(g, n, vertexPositionName, args, outs)
        == OutputLines(g, n, vertexPositionName, args, front) + OutputLine(g, n, vertexPositionName, args, last, |outs| - 1);
    }
  }

  /** The forwarding assignments for the node's outputs `outs`, in order. */
  function ForwardLines(g: Graph, outs: seq<PortId>): seq<string>
    requires forall k :: 0 <= k < |outs| ==> outs[k] < |g.ports|
  {
    if outs == [] then []
    else
      var o := outs[|outs| - 1];
      ForwardLines(g, outs[..|outs| - 1])
        + (if Forwarded(g, o) then [FormatConnection(g.ports[o], g.ports[Sibling(g, o).value])] else [])
  }

  /** Every forwarding port among `outs` gets its assignment, and every assignment belongs to one. */
  lemma {:induction false} ForwardLinesSpec(g: Graph, outs: seq<PortId>)
    requires forall k :: 0 <= k < |outs| ==> outs[k] < |g.ports|
    ensures forall o :: o in outs && Forwarded(g, o) ==>
      FormatConnection(g.ports[o], g.ports[Sibling(g, o).value]) in ForwardLines(g, outs)
    ensures forall l :: l in ForwardLines(g, outs) ==>
      exists o :: o in outs && Forwarded(g, o) && l == FormatConnection(g.ports[o], g.ports[Sibling(g, o).value])
  {
    if outs != [] {
      var front := outs[..|outs| - 1];
      ForwardLinesSpec(g, front);
      assert outs == front + [outs[|outs| - 1]];
    }
  }

  /** compile_node's lines for node `n`. */
  function NodeLines(g: Graph, n: NodeId, vertexPositionName: string): seq<string>
    requires n < |g.nodes|
  {
    OutputLines(g, n, vertexPositionName, CallArgs(g, n), SortedOrdinaryOutputs(g, n))
      + ForwardLines(g, NodePortsOfType(g, n, Output))
  }

  /** A Property output port is declared once: as a uniform in the header, or by the forwarding
      assignment in its node's statement. */
  lemma PropertyOutputDeclared(g: Graph, o: PortId, vertexPositionName: string)
    requires o < |g.ports| && g.ports[o].flavor == Property && g.ports[o].portType == Output
    requires g.ports[o].node < |g.nodes|
    ensures IsUniform(g, o) ==> UniformLine(g.ports[o]) in HeaderLines(g, vertexPositionName)
    ensures !IsUniform(g, o) ==>
      FormatConnection(g.ports[o], g.ports[Sibling(g, o).value]) in NodeLines(g, g.ports[o].node, vertexPositionName)
  {
    var n := g.ports[o].node;
    HeaderSpec(g, vertexPositionName);
    var h := HeaderLines(g, vertexPositionName);
    if IsUniform(g, o) {
      assert o in UniformPortSet(g);
      assert h == h[..3] + h[3..];
    } else {
      var outs := NodePortsOfType(g, n, Output);
      ForwardLinesSpec(g, outs);
      assert o in outs;
    }
  }

  // ---------------------------------------------------------------------------------------------
  // Program end

  /** The ids of the nodes of type FragmentNode. */
  function FragmentNodes(nodes: seq<Node>): (r: seq<NodeId>)
    ensures forall k :: 0 <= k < |r| ==> r[k] < |nodes| && nodes[r[k]].nodeType == FragmentNode
    ensures forall n :: 0 <= n < |nodes| && nodes[n].nodeType == FragmentNode ==> n in r
    ensures StrictlyIncreasing(r)
  {
    if nodes == [] then []
    else
      var front := FragmentNodes(nodes[..|nodes| - 1]);
      assert forall k :: 0 <= k < |front| ==> front[k] < |nodes| - 1;
      front + (if nodes[|nodes| - 1].nodeType == FragmentNode then [|nodes| - 1] else [])
  }

  function FragmentCountMessage(count: nat): string
  {
    "expected exactly one fragment node but found " + NatToString(count) + "."
  }

  /** The final colour assignment from the fragment node's input `u`. */
  function OutputAssignment(u: string): string
  {
    var alpha := "clamp(0.0, 1.0, " + u + ".a)";
    var rgb := "clamp(vec3(0.0), vec3(1.0), " + u + ".rgb)";
    OutputVariableName + " = vec4(" + alpha + " * " + rgb + ", " + alpha + ");"
  }

  /** The input port of the one fragment node, whose value becomes the output colour. */
  function FragmentInput(g: Graph): (ip: PortId)
    requires Wf(g) && |FragmentNodes(g.nodes)| == 1
    ensures ip < |g.ports|
  {
    g.nodes[FragmentNodes(g.nodes)[0]].rolePort
  }

  /** end_program: without exactly one fragment node, an error and no lines; otherwise the colour
      assignment when the fragment input is connected, then the closing brace. */
  function EndResult(g: Graph): (r: StageResult)
    requires Wf(g)
    ensures r.error != "" <==> |FragmentNodes(g.nodes)| != 1
    ensures r.error != "" ==> r.error == FragmentCountMessage(|FragmentNodes(g.nodes)|) && r.lines == []
    ensures r.error == "" ==> |r.lines| >= 1 && r.lines[|r.lines| - 1] == MainClose
  {
    var fragments := FragmentNodes(g.nodes);
    if |fragments| != 1 then StageResult([], FragmentCountMessage(|fragments|))
    else
      var ip := g.nodes[fragments[0]].rolePort;
      var assignment := if IsConnected(g.ports[ip]) then [OutputAssignment(Uuid(g.ports[ip]))] else [];
      StageResult(assignment + [MainClose], "")
  }

  /** With one fragment node the program end emits the colour assignment iff the fragment input
      is connected, and only then; the closing brace follows it. */
  lemma EndResultColour(g: Graph)
    requires Wf(g) && |FragmentNodes(g.nodes)| == 1
    ensures var r := EndResult(g); var input := g.ports[FragmentInput(g)];
      && r.error == ""
      && (|r.lines| == 2 <==> IsConnected(input))
      && (!IsConnected(input) ==> r.lines == [MainClose])
      && (IsConnected(input) ==> r.lines == [OutputAssignment(Uuid(input)), MainClose])
  {
  }

  // ---------------------------------------------------------------------------------------------
  // The whole compile

  /** The ids a stage refers to exist and the node types it defines have a definition. */
  predicate StageValid(g: Graph, definitions: map<string, string>, stage: Stage)
  {
    match stage
    case DefineNode(t) => t in definitions
    case Emit(Connection(s, t)) => s < |g.ports| && t < |g.ports|
    case Emit(Evaluate(n)) => n < |g.nodes|
    case _ => true
  }

  predicate StatementValid(g: Graph, s: Statement)
  {
    match s
    case Connection(src, tgt) => src < |g.ports| && tgt < |g.ports|
    case Evaluate(n) => n < |g.nodes|
  }

  /** What one stage appends and returns. */
  function StageOutput(g: Graph, definitions: map<string, string>, vertexPositionName: string, stage: Stage): StageResult
    requires Wf(g) && StageValid(g, definitions, stage)
  {
    match stage
    case Header => StageResult(HeaderLines(g, vertexPositionName), "")
    case DefineNode(t) => StageResult([definitions[t]], "")
    case StartProgram => StageResult([MainOpen], "")
    case Emit(Connection(s, t)) => StageResult([FormatConnection(g.ports[t], g.ports[s])], "")
    case Emit(Evaluate(n)) => StageResult(NodeLines(g, n, vertexPositionName), "")
    case EndProgram => EndResult(g)
  }

  predicate CompileValid(g: Graph, definitions: map<string, string>, usedTypes: set<string>, statements: seq<Statement>)
  {
    && Wf(g)
    && usedTypes <= definitions.Keys
    && forall k :: 0 <= k < |statements| ==> StatementValid(g, statements[k])
  }

  function StageResults(g: Graph, definitions: map<string, string>, vertexPositionName: string, stages: seq<Stage>): (rs: seq<StageResult>)
    requires Wf(g) && forall k :: 0 <= k < |stages| ==> StageValid(g, definitions, stages[k])
    ensures |rs| == |stages|
  {
    seq(|stages|, k requires 0 <= k < |stages| => StageOutput(g, definitions, vertexPositionName, stages[k]))
  }

  lemma StagesValid(g: Graph, definitions: map<string, string>, usedTypes: set<string>, statements: seq<Statement>)
    requires CompileValid(g, definitions, usedTypes, statements)
    ensures forall k :: 0 <= k < |Stages(usedTypes, statements)| ==> StageValid(g, definitions, Stages(usedTypes, statements)[k])
  {
    var stages := Stages(usedTypes, statements);
    StagesDefine(usedTypes, statements);
    StagesEmit(usedTypes, statements);
    forall k | 0 <= k < |stages| ensures StageValid(g, definitions, stages[k]) {
      if stages[k].Emit? {
        var j :| 0 <= j < |statements| && statements[j] == stages[k].statement;
      }
    }
  }

  /** What each stage of a GLSL compile appends and returns, in stage order. */
  function CompileStages(g: Graph, definitions: map<string, string>, vertexPositionName: string,
                         usedTypes: set<string>, statements: seq<Statement>): (rs: seq<StageResult>)
    requires CompileValid(g, definitions, usedTypes, statements)
    ensures |rs| == |usedTypes| + |statements| + 3
  {
    StagesValid(g, definitions, usedTypes, statements);
    StageResults(g, definitions, vertexPositionName, Stages(usedTypes, statements))
  }

  /** The outcome of compile() for the GLSL backend. */
  function CompileResult(g: Graph, definitions: map<string, string>, vertexPositionName: string,
                         usedTypes: set<string>, statements: seq<Statement>): Outcome
    requires CompileValid(g, definitions, usedTypes, statements)
  {
    Finish(Collect(CompileStages(g, definitions, vertexPositionName, usedTypes, statements)))
  }

  /** Every line the stages of a compile append, in stage order. */
  function CompileLines(g: Graph, definitions: map<string, string>, vertexPositionName: string,
                        usedTypes: set<string>, statements: seq<Statement>): seq<string>
    requires CompileValid(g, definitions, usedTypes, statements)
  {
    AllLines(CompileStages(g, definitions, vertexPositionName, usedTypes, statements))
  }

  /** Only the program end can report an error. */
  lemma OnlyEndFails(g: Graph, definitions: map<string, string>, vertexPositionName: string, stage: Stage)
    requires Wf(g) && StageValid(g, definitions, stage) && stage != EndProgram
    ensures StageOutput(g, definitions, vertexPositionName, stage).error == ""
  {
  }

  /** When only the last stage is the program end, every stage before it succeeds. */
  lemma StagesBeforeEndSucceed(g: Graph, definitions: map<string, string>, vertexPositionName: string, stages: seq<Stage>)
    requires Wf(g) && forall k :: 0 <= k < |stages| ==> StageValid(g, definitions, stages[k])
    requires |stages| > 0 && stages[|stages| - 1] == EndProgram
    requires forall k :: 0 <= k < |stages| - 1 ==> stages[k] != EndProgram
    ensures var rs := StageResults(g, definitions, vertexPositionName, stages);
      && NoErrors(rs[..|rs| - 1])
      && rs[|rs| - 1] == EndResult(g)
  {
    var rs := StageResults(g, definitions, vertexPositionName, stages);
    var last := |rs| - 1;
    forall k | 0 <= k < last ensures rs[..last][k].error == "" {
      OnlyEndFails(g, definitions, vertexPositionName, stages[k]);
    }
  }

  /** In a compile every stage before the program end succeeds, and the program end comes last. */
  lemma EndIsLast(g: Graph, definitions: map<string, string>, vertexPositionName: string,
                  usedTypes: set<string>, statements: seq<Statement>)
    requires CompileValid(g, definitions, usedTypes, statements)
    ensures var rs := CompileStages(g, definitions, vertexPositionName, usedTypes, statements);
      NoErrors(rs[..|rs| - 1]) && rs[|rs| - 1] == EndResult(g)
  {
    StagesValid(g, definitions, usedTypes, statements);
    StagesFrame(usedTypes, statements);
    StagesBeforeEndSucceed(g, definitions, vertexPositionName, Stages(usedTypes, statements));
  }

  /** A GLSL compile fails exactly when the graph does not hold one fragment node, and then with
      the message that names the count. */
  lemma CompileFailure(g: Graph, definitions: map<string, string>, vertexPositionName: string,
                       usedTypes: set<string>, statements: seq<Statement>)
    requires CompileValid(g, definitions, usedTypes, statements)
    ensures var o := CompileResult(g, definitions, vertexPositionName, usedTypes, statements);
      && (o.Failed? <==> |FragmentNodes(g.nodes)| != 1)
      && (o.Failed? ==> o.reason == FragmentCountMessage(|FragmentNodes(g.nodes)|))
  {
    var rs := CompileStages(g, definitions, vertexPositionName, usedTypes, statements);
    EndIsLast(g, definitions, vertexPositionName, usedTypes, statements);
    LastStageDecides(rs);
  }

  /** A successful GLSL compile's code is every stage's lines joined with newlines. */
  lemma CompileCode(g: Graph, definitions: map<string, string>, vertexPositionName: string,
                    usedTypes: set<string>, statements: seq<Statement>)
    requires CompileValid(g, definitions, usedTypes, statements)
    ensures var o := CompileResult(g, definitions, vertexPositionName, usedTypes, statements);
      o.Succeeded? ==> o.code == Join(CompileLines(g, definitions, vertexPositionName, usedTypes, statements), "\n")
  {
    CollectOutcome(CompileStages(g, definitions, vertexPositionName, usedTypes, statements));
  }

  /** The generated lines start with the header. */
  lemma CompileStartsWithHeader(g: Graph, definitions: map<string, string>, vertexPositionName: string,
                                usedTypes: set<string>, statements: seq<Statement>)
    requires CompileValid(g, definitions, usedTypes, statements)
    ensures var lines := CompileLines(g, definitions, vertexPositionName, usedTypes, statements);
      var header := HeaderLines(g, vertexPositionName);
      |header| <= |lines| && lines[..|header|] == header
  {
    StagesValid(g, definitions, usedTypes, statements);
    StagesFrame(usedTypes, statements);
    var rs := StageResults(g, definitions, vertexPositionName, Stages(usedTypes, statements));
    AllLinesStart(rs);
  }

  /** The lines every stage but the program end appends. */
  function LinesBeforeEnd(g: Graph, definitions: map<string, string>, vertexPositionName: string,
                          usedTypes: set<string>, statements: seq<Statement>): seq<string>
    requires CompileValid(g, definitions, usedTypes, statements)
  {
    var rs := CompileStages(g, definitions, vertexPositionName, usedTypes, statements);
    AllLines(rs[..|rs| - 1])
  }

  /** With exactly one fragment node the generated code assigns the output colour exactly when the
      fragment input is connected, as the line just before the closing brace. */
  lemma CompileAssignsColour(g: Graph, definitions: map<string, string>, vertexPositionName: string,
                             usedTypes: set<string>, statements: seq<Statement>)
    requires CompileValid(g, definitions, usedTypes, statements) && |FragmentNodes(g.nodes)| == 1
    ensures var lines := CompileLines(g, definitions, vertexPositionName, usedTypes, statements);
      var before := LinesBeforeEnd(g, definitions, vertexPositionName, usedTypes, statements);
      var input := g.ports[FragmentInput(g)];
      && (IsConnected(input) ==> lines == before + [OutputAssignment(Uuid(input)), MainClose])
      && (!IsConnected(input) ==> lines == before + [MainClose])
  {
    CompileLinesSplit(g, definitions, vertexPositionName, usedTypes, statements);
    EndResultColour(g);
  }

  /** The generated lines are the earlier stages' lines followed by the program end's. */
  lemma CompileLinesSplit(g: Graph, definitions: map<string, string>, vertexPositionName: string,
                          usedTypes: set<string>, statements: seq<Statement>)
    requires CompileValid(g, definitions, usedTypes, statements)
    ensures CompileLines(g, definitions, vertexPositionName, usedTypes, statements)
      == LinesBeforeEnd(g, definitions, vertexPositionName, usedTypes, statements) + EndResult(g).lines
  {
    EndIsLast(g, definitions, vertexPositionName, usedTypes, statements);
    AllLinesSplitLast(CompileStages(g, definitions, vertexPositionName, usedTypes, statements));
  }

  /** With exactly one fragment node the generated lines end with the closing brace. */
  lemma CompileEndsWithClose(g: Graph, definitions: map<string, string>, vertexPositionName: string,
                             usedTypes: set<string>, statements: seq<Statement>)
    requires CompileValid(g, definitions, usedTypes, statements) && |FragmentNodes(g.nodes)| == 1
    ensures var lines := CompileLines(g, definitions, vertexPositionName, usedTypes, statements);
      |lines| > 0 && lines[|lines| - 1] == MainClose
  {
    CompileLinesSplit(g, definitions, vertexPositionName, usedTypes, statements);
  }

  // ---------------------------------------------------------------------------------------------
  // The backend object

  /** NodeCompilerGLSL: compiles one node model into a fragment shader. It keeps the uniform ports
      of the last header it generated and the message of the last failed compile. */
  class NodeCompilerGlsl {
    /** The graph compiled; a compile pass sees it unchanged. */
    const model: Graph
    /** Each node type's GLSL definition (Node::detail(type).definitions.at(GLSL)). */
    const definitions: map<string, string>
    /** OffscreenRenderer::vertex_position_name. */
    const vertexPositionName: string
    const language: Language := GLSL
    /** The GLSL backend recompiles as soon as it is invalidated. */
    const lazy: bool := false

    var uniformPorts: set<PortId>
    var lastError: string

    constructor (model: Graph, definitions: map<string, string>, vertexPositionName: string)
      ensures this.model == model && this.definitions == definitions
      ensures this.vertexPositionName == vertexPositionName
      ensures uniformPorts == {} && lastError == ""
    {
      this.model := model;
      this.definitions := definitions;
      this.vertexPositionName := vertexPositionName;
      uniformPorts := {};
      lastError := "";
    }

    /** uniform_ports(). */
    function UniformPorts(): set<PortId>
      reads this
    {
      uniformPorts
    }

    method GenerateHeader(lines: seq<string>) returns (out: seq<string>, msg: string)
      modifies this`uniformPorts
      ensures out == lines + HeaderLines(model, vertexPositionName) && msg == ""
      ensures uniformPorts == UniformPortSet(model)
    {
      uniformPorts := {};
      out := lines + ["#version 330"];
      out := out + ["varying vec2 " + vertexPositionName + ";"];
      out := out + ["out vec4 " + OutputVariableName + ";"];
      out := DeclareUniforms(OutputPorts(model), out);
      UniformSetOfOutputs(model);
      msg := "";
    }

    /** generate_header's loop over the output ports `outputs`: each Property output whose
        sibling is missing or unconnected is recorded and declared as a uniform. */
    method DeclareUniforms(outputs: seq<PortId>, lines: seq<string>) returns (out: seq<string>)
      requires forall k :: 0 <= k < |outputs| ==> outputs[k] < |model.ports|
      modifies this`uniformPorts
      ensures out == lines + UniformLines(model, outputs)
      ensures uniformPorts == old(uniformPorts) + UniformSet(model, outputs)
    {
      out := lines;
      for k := 0 to |outputs|
        invariant out == lines + UniformLines(model, outputs[..k])
        invariant uniformPorts == old(uniformPorts) + UniformSet(model, outputs[..k])
      {
        var o := outputs[k];
        assert outputs[..k + 1] == outputs[..k] + [o];
        UniformStep(model, outputs[..k], o);
        var uniform := CheckUniform(o);
        if uniform {
          AppendAssoc(lines, UniformLines(model, outputs[..k]), [UniformLine(model.ports[o])]);
          uniformPorts := uniformPorts + {o};
          out := out + [UniformLine(model.ports[o])];
        }
      }
      assert outputs[..|outputs|] == outputs;
    }

    /** The test in generate_header's loop: a Property output whose sibling is missing or
        unconnected is declared uniform. */
    method CheckUniform(o: PortId) returns (uniform: bool)
      requires o < |model.ports|
      ensures uniform == IsUniform(model, o)
    {
      uniform := false;
      var port := model.ports[o];
      if port.flavor == Property {
        if port.portType == Output {
          var sibling := GetSibling(model, o);
          uniform := sibling.None? || !IsConnected(model.ports[sibling.value]);
        }
      }
    }

    method StartProgram(lines: seq<string>) returns (out: seq<string>, msg: string)
      ensures out == lines + [MainOpen] && msg == ""
    {
      out := lines + [MainOpen];
      msg := "";
    }

    method EndProgram(lines: seq<string>) returns (out: seq<string>, msg: string)
      requires Wf(model)
      ensures out == lines + EndResult(model).lines && msg == EndResult(model).error
      ensures msg == "" ==> var input := model.ports[FragmentInput(model)];
        && |out| >= |lines| + 1 && out[..|lines|] == lines && out[|out| - 1] == MainClose
        && (|out| == |lines| + 2 <==> IsConnected(input))
        && (IsConnected(input) ==> out[|lines|] == OutputAssignment(Uuid(input)))
    {
      var fragments := FragmentNodes(model.nodes);
      if |fragments| != 1 {
        return lines, FragmentCountMessage(|fragments|);
      }
      out := lines;
      var port := model.ports[model.nodes[fragments[0]].rolePort];
      if IsConnected(port) {
        out := out + [OutputAssignment(Uuid(port))];
      }
      out := out + [MainClose];
      msg := "";
    }

    method CompileNode(n: NodeId, lines: seq<string>) returns (out: seq<string>, msg: string)
      requires n < |model.nodes|
      ensures out == lines + NodeLines(model, n, vertexPositionName) && msg == ""
    {
      var args := CallArgs(model, n);
      var outs := SortedOrdinaryOutputs(model, n);
      var outputs := NodePortsOfType(model, n, Output);
      ghost var calls := OutputLines(model, n, vertexPositionName, args, outs);
      ghost var forwarded := ForwardLines(model, outputs);
      out := AssignOutputs(n, args, outs, lines);
      out := ForwardProperties(outputs, out);
      AppendAssoc(lines, calls, forwarded);
      msg := "";
    }

    /** compile_node's loop over node `n`'s Ordinary outputs sorted by index: the vertex node
        aliases its position output, every other node assigns output `i` from call `i`. */
    method AssignOutputs(n: NodeId, args: seq<string>, outs: seq<PortId>, lines: seq<string>) returns (out: seq<string>)
      requires n < |model.nodes| && forall k :: 0 <= k < |outs| ==> outs[k] < |model.ports|
      ensures out == lines + OutputLines(model, n, vertexPositionName, args, outs)
    {
      out := lines;
      var i := 0;
      while i < |outs|
        invariant 0 <= i <= |outs|
        invariant out == lines + OutputLines(model, n, vertexPositionName, args, outs[..i])
      {
        var produced := AssignOutput(n, args, outs[i], i);
        OutputLinesStep(model, n, vertexPositionName, args, outs, i);
        AppendAssoc(lines, OutputLines(model, n, vertexPositionName, args, outs[..i]), produced);
        out := out + produced;
        i := i + 1;
      }
      assert outs[..|outs|] == outs;
    }

    /** One pass of that loop: the line output `o`, at position `i`, contributes. */
    method AssignOutput(n: NodeId, args: seq<string>, o: PortId, i: nat) returns (produced: seq<string>)
      requires n < |model.nodes| && o < |model.ports|
      ensures produced == OutputLine(model, n, vertexPositionName, args, o, i)
    {
      var node := model.nodes[n];
      var port := model.ports[o];
      produced := [];
      if node.nodeType == VertexNode {
        if o == node.rolePort {
          produced := [PositionLine(port, vertexPositionName)];
        }
      } else {
        produced := [CallLine(port, NodeTypeName(node.nodeType), i, args)];
      }
    }

    /** compile_node's loop over the node's output ports: a Property output whose sibling input is
        connected is assigned that input's value. */
    method ForwardProperties(outputs: seq<PortId>, lines: seq<string>) returns (out: seq<string>)
      requires forall k :: 0 <= k < |outputs| ==> outputs[k] < |model.ports|
      ensures out == lines + ForwardLines(model, outputs)
    {
      out := lines;
      for k := 0 to |outputs|
        invariant out == lines + ForwardLines(model, outputs[..k])
      {
        var op := outputs[k];
        assert outputs[..k + 1][..k] == outputs[..k];
        if model.ports[op].flavor == Property {
          var sibling := GetSibling(model, op);
          if sibling.Some? && IsConnected(model.ports[sibling.value]) {
            out := out + [FormatConnection(model.ports[op], model.ports[sibling.value])];
          }
        }
      }
      assert outputs[..|outputs|] == outputs;
    }

    method CompileConnection(op: PortId, ip: PortId, lines: seq<string>) returns (out: seq<string>, msg: string)
      requires op < |model.ports| && ip < |model.ports|
      ensures out == lines + [FormatConnection(model.ports[ip], model.ports[op])] && msg == ""
    {
      out := lines + [FormatConnection(model.ports[ip], model.ports[op])];
      msg := "";
    }

    method DefineNode(nodeType: string, lines: seq<string>) returns (out: seq<string>, msg: string)
      requires nodeType in definitions
      ensures out == lines + [definitions[nodeType]] && msg == ""
    {
      out := lines + [definitions[nodeType]];
      msg := "";
    }

    /** One CHECK(...) of compile(): the stage's call, dispatched on the kind of statement. */
    method RunStage(stage: Stage, lines: seq<string>) returns (out: seq<string>, msg: string)
      requires Wf(model) && StageValid(model, definitions, stage)
      modifies this`uniformPorts
      ensures out == lines + StageOutput(model, definitions, vertexPositionName, stage).lines
      ensures msg == StageOutput(model, definitions, vertexPositionName, stage).error
      ensures uniformPorts == if stage.Header? then UniformPortSet(model) else old(uniformPorts)
    {
      match stage
      case Header =>
        out, msg := GenerateHeader(lines);
      case DefineNode(t) =>
        out, msg := DefineNode(t, lines);
      case StartProgram =>
        out, msg := StartProgram(lines);
      case Emit(Connection(s, t)) =>
        out, msg := CompileConnection(s, t, lines);
      case Emit(Evaluate(n)) =>
        out, msg := CompileNode(n, lines);
      case EndProgram =>
        out, msg := EndProgram(lines);
    }

    /** compile(): runs the stages in order and stops at the first error, which becomes the last
        error; on success the code is the lines joined with newlines. */
    method Compile(usedTypes: set<string>, statements: seq<Statement>) returns (code: string, outcome: Outcome)
      requires CompileValid(model, definitions, usedTypes, statements)
      modifies this`uniformPorts, this`lastError
      ensures outcome == CompileResult(model, definitions, vertexPositionName, usedTypes, statements)
      ensures code == if outcome.Succeeded? then outcome.code else ""
      ensures lastError == if outcome.Failed? then outcome.reason else old(lastError)
      ensures uniformPorts == UniformPortSet(model)
    {
      var stages := Stages(usedTypes, statements);
      StagesValid(model, definitions, usedTypes, statements);
      StagesFrame(usedTypes, statements);
      var run := RunStages(stages);
      match run
      case Aborted(e) =>
        lastError := e;
        code, outcome := "", Failed(e);
      case Done(lines) =>
        code := Join(lines, "\n");
        outcome := Succeeded(code);
    }

    /** The CHECK(...) sequence of compile(): the stages run in order, their lines are collected,
        and the first stage that reports an error ends the run. */
    method RunStages(stages: seq<Stage>) returns (run: Run)
      requires Wf(model) && forall k :: 0 <= k < |stages| ==> StageValid(model, definitions, stages[k])
      requires |stages| > 0 && stages[0] == Header
      modifies this`uniformPorts
      ensures run == Collect(StageResults(model, definitions, vertexPositionName, stages))
      ensures uniformPorts == UniformPortSet(model)
    {
      ghost var rs := StageResults(model, definitions, vertexPositionName, stages);
      var lines: seq<string> := [];
      for p := 0 to |stages|
        invariant lines == AllLines(rs[..p]) && NoErrors(rs[..p])
        invariant p > 0 ==> uniformPorts == UniformPortSet(model)
      {
        var msg;
        lines, msg := RunStage(stages[p], lines);
        assert rs[p] == StageOutput(model, definitions, vertexPositionName, stages[p]);
        if msg != "" {
          AbortsAt(rs, p);
          return Aborted(msg);
        }
        AllLinesSnoc(rs, p);
        NoErrorsSnoc(rs, p);
      }
      assert rs[..|stages|] == rs;
      CollectOutcome(rs);
      run := Done(lines);
    }

    /** invalidate(): the GLSL backend is not lazy, so invalidating recompiles at once. */
    method Invalidate(usedTypes: set<string>, statements: seq<Statement>) returns (code: string, outcome: Outcome)
      requires CompileValid(model, definitions, usedTypes, statements)
      modifies this`uniformPorts, this`lastError
      ensures outcome == CompileResult(model, definitions, vertexPositionName, usedTypes, statements)
      ensures code == if outcome.Succeeded? then outcome.code else ""
      ensures lastError == if outcome.Failed? then outcome.reason else old(lastError)
      ensures uniformPorts == UniformPortSet(model)
    {
      code, outcome := Compile(usedTypes, statements);
    }
  }
}
