/**
 * A scene of the visualizer, src/visualizer/src/core/scenes/base_scene.py:
 * an ordered list of nodes looked up by name. A node is seen here through
 * its identity and its name; `on_destroy`, which each node runs when it
 * leaves the scene, is code outside this model, so the methods that call it
 * answer which nodes they destroyed, in order.
 */
module Scenes {
  import opened Wrappers
  import opened PyList

  datatype Node = Node(id: nat, name: string)

  /** EngineElementNotFound of a failed lookup, and the ValueError of `list.remove`. */
  datatype SceneError = ElementNotFound | NotInScene

  /** The names of the nodes, in order. */
  function Names(nodes: seq<Node>): (r: seq<string>)
    ensures |r| == |nodes| && forall i :: 0 <= i < |nodes| ==> r[i] == nodes[i].name
  {
    seq(|nodes|, i requires 0 <= i < |nodes| => nodes[i].name)
  }

  /** The position of the first node with the name: what every lookup of the scene finds. */
  function FirstNamed(nodes: seq<Node>, name: string): (r: Option<nat>)
    ensures r.Some? ==> r.value < |nodes| && nodes[r.value].name == name
    ensures r.Some? ==> forall j :: 0 <= j < r.value ==> nodes[j].name != name
    ensures r.None? <==> forall j :: 0 <= j < |nodes| ==> nodes[j].name != name
  {
    var r := IndexOf(Names(nodes), name);
    assert r.Some? ==> forall j :: 0 <= j < r.value ==> Names(nodes)[..r.value][j] == nodes[j].name;
    r
  }

  /** A name's first position among the nodes is what `FirstNamed` answers. */
  lemma NamedAt(nodes: seq<Node>, name: string, i: nat)
    requires i < |nodes| && nodes[i].name == name
    requires forall j :: 0 <= j < i ==> nodes[j].name != name
    ensures FirstNamed(nodes, name) == Some(i)
  {
    assert FirstNamed(nodes, name).Some?;
  }

  /** A node added to a scene is what its name finds, unless an earlier node has the same name. */
  lemma AddedFound(nodes: seq<Node>, n: Node)
    ensures FirstNamed(nodes + [n], n.name) == if FirstNamed(nodes, n.name).Some? then FirstNamed(nodes, n.name) else Some(|nodes|)
  {
    var next := nodes + [n];
    assert forall j :: 0 <= j < |nodes| ==> next[j] == nodes[j];
    match FirstNamed(nodes, n.name)
    case Some(i) =>
      NamedAt(next, n.name, i);
    case None =>
      NamedAt(next, n.name, |nodes|);
  }

  /** Adding a node leaves what every other name finds as it was. */
  lemma AddedKeepsOthers(nodes: seq<Node>, n: Node, name: string)
    requires name != n.name
    ensures FirstNamed(nodes + [n], name) == FirstNamed(nodes, name)
  {
    var next := nodes + [n];
    assert forall j :: 0 <= j < |nodes| ==> next[j] == nodes[j];
    match FirstNamed(nodes, name)
    case Some(i) =>
      NamedAt(next, name, i);
    case None =>
      assert forall j :: 0 <= j < |next| ==> next[j].name != name;
  }

  class BaseScene {
    var nodes: seq<Node>

    /** A scene starts with the nodes given, or with none when there are none. */
    constructor (given: Option<seq<Node>>)
      ensures nodes == if given.Some? then given.value else []
    {
      if given.Some? && |given.value| > 0 {
        nodes := given.value;
      } else {
        nodes := [];
      }
    }

    /** `__contains__`: whether some node has the name. */
    method Contains(name: string) returns (r: bool)
      ensures r <==> exists i :: 0 <= i < |nodes| && nodes[i].name == name
    {
      for i := 0 to |nodes|
        invariant forall j :: 0 <= j < i ==> nodes[j].name != name
      {
        if nodes[i].name == name {
          return true;
        }
      }
      return false;
    }

    /** The scan shared by `__getitem__`, `node` and `get_node`. */
    method Lookup(name: string) returns (r: Option<nat>)
      ensures r == FirstNamed(nodes, name)
    {
      for i := 0 to |nodes|
        invariant forall j :: 0 <= j < i ==> nodes[j].name != name
      {
        if nodes[i].name == name {
          return Some(i);
        }
      }
      return None;
    }

    /**
     * `__getitem__` and `node`: the first node with the name, or
     * EngineElementNotFound; the two differ only in the message.
     */
    method GetItem(name: string) returns (r: Result<Node, SceneError>)
      ensures r.Failure? <==> forall j :: 0 <= j < |nodes| ==> nodes[j].name != name
      ensures r.Failure? ==> r.error == ElementNotFound
      ensures r.Success? ==> r == Success(nodes[FirstNamed(nodes, name).value])
    {
      var i := Lookup(name);
      if i.None? {
        return Failure(ElementNotFound);
      }
      return Success(nodes[i.value]);
    }

    /** `get_node`: the first node with the name, or None. */
    method GetNode(name: string) returns (r: Option<Node>)
      ensures r.None? <==> forall j :: 0 <= j < |nodes| ==> nodes[j].name != name
      ensures r.Some? ==> r == Some(nodes[FirstNamed(nodes, name).value])
    {
      var i := Lookup(name);
      if i.None? {
        return None;
      }
      return Some(nodes[i.value]);
    }

    /** `add_node`: the node joins the end of the scene. */
    method AddNode(n: Node)
      modifies this
      ensures nodes == old(nodes) + [n]
    {
      nodes := nodes + [n];
    }

    /**
     * `remove_node`: the node is destroyed, then its first occurrence leaves
     * the scene; ValueError when it was not in the scene, after the node has
     * already been destroyed.
     */
    method RemoveNode(n: Node) returns (destroyed: seq<Node>, err: Option<SceneError>)
      modifies this
      ensures destroyed == [n]
      ensures RemoveFirst(old(nodes), n).None? ==> err == Some(NotInScene) && nodes == old(nodes)
      ensures RemoveFirst(old(nodes), n).Some? ==> err.None? && nodes == RemoveFirst(old(nodes), n).value
    {
      destroyed := [n];
      var rest := RemoveFirst(nodes, n);
      if rest.None? {
        return destroyed, Some(NotInScene);
      }
      nodes := rest.value;
      return destroyed, None;
    }

    /** `on_unload`: every node is destroyed, in order, and the scene is emptied. */
    method OnUnload() returns (destroyed: seq<Node>)
      modifies this
      ensures destroyed == old(nodes) && nodes == []
    {
      destroyed := [];
      for i := 0 to |nodes|
        invariant destroyed == nodes[..i]
      {
        destroyed := destroyed + [nodes[i]];
      }
      assert destroyed == nodes[..|nodes|];
      nodes := [];
    }
  }
}
