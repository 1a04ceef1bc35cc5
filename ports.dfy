/** Port connection bookkeeping of the node system (port.cpp). An input port refers to at most one
    output port; an output port keeps the set of input ports connected to it. The two sides are
    kept in step by `InputPort.Connect`, which also tells the node model that the topology
    changed. */
module Ports {

  /** The node model the ports belong to: it owns the ports and counts topology notifications. */
  class NodeModel {
    ghost var inputs: set<InputPort>
    ghost var outputs: set<OutputPort>
    var topologyChanges: nat

    constructor ()
      ensures inputs == {} && outputs == {} && topologyChanges == 0
    {
      inputs := {};
      outputs := {};
      topologyChanges := 0;
    }

    /** Both sides of every connection agree: an input refers to an output exactly when the
        output lists the input, and nothing refers outside the model. */
    ghost predicate Consistent()
      reads this, inputs, outputs
    {
      && (forall i :: i in inputs ==> i.connectedOutput == null || i.connectedOutput in outputs)
      && (forall o :: o in outputs ==> o.connections <= inputs)
      && (forall i, o :: i in inputs && o in outputs ==> (i.connectedOutput == o <==> i in o.connections))
    }
  }

  /** A port seen through the AbstractPort interface: either side. */
  datatype PortRef = InputRef(input: InputPort) | OutputRef(output: OutputPort)

  class OutputPort {
    const portLabel: string
    var connections: set<InputPort>

    constructor (portLabel: string)
      ensures this.portLabel == portLabel && connections == {}
    {
      this.portLabel := portLabel;
      connections := {};
    }

    /** OutputPort::is_connected(): some input is connected to this output. */
    predicate IsConnected()
      reads this
    {
      connections != {}
    }

    /** OutputPort::is_connected(other): asks the input; an output is never connected to an output. */
    predicate IsConnectedTo(other: PortRef)
      reads this, if other.InputRef? then {other.input} else {}
    {
      match other
      case InputRef(i) => i.IsConnectedTo(OutputRef(this))
      case OutputRef(_) => false
    }

    /** OutputPort::connect: set insertion, called by the input side only. */
    method Connect(port: InputPort)
      modifies this`connections
      ensures connections == old(connections) + {port}
    {
      connections := connections + {port};
    }

    /** OutputPort::disconnect: set erasure, called by the input side only. */
    method Disconnect(port: InputPort)
      modifies this`connections
      ensures connections == old(connections) - {port}
    {
      connections := connections - {port};
    }
  }

  class InputPort {
    const portLabel: string
    const model: NodeModel
    var connectedOutput: OutputPort?

    constructor (model: NodeModel, portLabel: string)
      ensures this.model == model && this.portLabel == portLabel && connectedOutput == null
    {
      this.model := model;
      this.portLabel := portLabel;
      connectedOutput := null;
    }

    /** InputPort::is_connected(): an output is attached. */
    predicate IsConnected()
      reads this
    {
      connectedOutput != null
    }

    /** InputPort::is_connected(other): never to an input; to an output iff it is the attached one. */
    predicate IsConnectedTo(other: PortRef)
      reads this
    {
      match other
      case InputRef(_) => false
      case OutputRef(o) => connectedOutput == o
    }

    /** InputPort::connect as written: nothing happens when `port` is already attached. Otherwise
        the previous output (if any) forgets this input, or else (when there was none) the new
        output learns it, then `port` is attached and one topology change is announced. */
    method Connect(port: OutputPort?)
      modifies this`connectedOutput, model`topologyChanges, connectedOutput, port
      ensures connectedOutput == port
      ensures old(connectedOutput) == port ==>
        model.topologyChanges == old(model.topologyChanges)
        && (port != null ==> port.connections == old(port.connections))
      ensures old(connectedOutput) != port ==> model.topologyChanges == old(model.topologyChanges) + 1
      ensures old(connectedOutput) != port && old(connectedOutput) != null ==>
        old(connectedOutput).connections == old(connectedOutput.connections) - {this}
        && (port != null ==> port.connections == old(port.connections))
      ensures old(connectedOutput) != port && old(connectedOutput) == null && port != null ==>
        port.connections == old(port.connections) + {this}
      ensures old(model.Consistent()) && this in model.inputs && (port == null || port in model.outputs)
        && (old(connectedOutput) == null || port == null || old(connectedOutput) == port)
        ==> model.Consistent()
    {
      if connectedOutput != port {
        if connectedOutput != null {
          connectedOutput.Disconnect(this);
        } else if port != null {
          port.Connect(this);
        }
        connectedOutput := port;
        model.topologyChanges := model.topologyChanges + 1;
      }
    }

    /** InputPort::connect with the previous output released and the new one told, in every case:
        the connection bookkeeping stays consistent whatever was attached before. */
    method ConnectBothSides(port: OutputPort?)
      modifies this`connectedOutput, model`topologyChanges, connectedOutput, port
      ensures connectedOutput == port
      ensures old(connectedOutput) == port ==>
        model.topologyChanges == old(model.topologyChanges)
        && (port != null ==> port.connections == old(port.connections))
      ensures old(connectedOutput) != port ==> model.topologyChanges == old(model.topologyChanges) + 1
      ensures old(connectedOutput) != port && old(connectedOutput) != null ==>
        old(connectedOutput).connections == old(connectedOutput.connections) - {this}
      ensures old(connectedOutput) != port && port != null ==>
        port.connections == old(port.connections) + {this}
      ensures old(model.Consistent()) && this in model.inputs && (port == null || port in model.outputs)
        ==> model.Consistent()
    {
      if connectedOutput != port {
        if connectedOutput != null {
          connectedOutput.Disconnect(this);
        }
        if port != null {
          port.Connect(this);
        }
        connectedOutput := port;
        model.topologyChanges := model.topologyChanges + 1;
      }
    }
  }

  /** The two sides answer `is_connected` alike. */
  lemma ConnectedSymmetric(i: InputPort, o: OutputPort)
    ensures o.IsConnectedTo(InputRef(i)) <==> i.IsConnectedTo(OutputRef(o))
    ensures !i.IsConnectedTo(InputRef(i)) && !o.IsConnectedTo(OutputRef(o))
  {
  }

  /** In a consistent model an output is connected to exactly the inputs it lists, and it is
      connected at all exactly when some input of the model refers to it. */
  lemma ConsistentConnections(m: NodeModel, o: OutputPort)
    requires m.Consistent() && o in m.outputs
    ensures forall i :: i in m.inputs ==> (o.IsConnectedTo(InputRef(i)) <==> i in o.connections)
    ensures o.IsConnected() <==> exists i :: i in m.inputs && i.connectedOutput == o
  {
    if o.IsConnected() {
      var i :| i in o.connections;
      assert i in m.inputs;
    }
  }

  /** Re-connecting an attached input to another output as written leaves the new output without
      the back-reference. */
  method ReconnectLosesBackReference() returns (i: InputPort, first: OutputPort, second: OutputPort)
    ensures i.connectedOutput == second && i !in second.connections && i !in first.connections
  {
    var m := new NodeModel();
    first := new OutputPort("first");
    second := new OutputPort("second");
    i := new InputPort(m, "input");
    i.Connect(first);
    i.Connect(second);
  }
}
