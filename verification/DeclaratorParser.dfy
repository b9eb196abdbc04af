/** The declarator parser: a list of type_parsed nodes spliced together while the tokens are eaten. */
module DeclParser {
  import opened Common
  import opened DeclSyntax
  import G = DeclGrammar

  /** type_parsed */
  class Node {
    var layer: Layer
    var prev: Node?

    constructor (layer: Layer, prev: Node?)
      ensures this.layer == layer && this.prev == prev
    {
      this.layer, this.prev := layer, prev;
    }
  }

  function Nth(nodes: seq<Node>, i: nat): Node? {
    if i < |nodes| then nodes[i] else null
  }

  /** The node at `i` holds the layer `l` if there is one for it, and links to the next node. */
  ghost predicate Links(nodes: seq<Node>, layers: seq<Layer>, i: nat)
    requires i < |nodes|
    reads nodes[i]
  {
    nodes[i].prev == Nth(nodes, i + 1) && (i < |layers| ==> nodes[i].layer == layers[i])
  }

  /** The list from `head` is `nodes`: distinct nodes, holding `layers`, and then those of `base`. */
  ghost predicate Built(head: Node?, nodes: seq<Node>, layers: seq<Layer>, base: seq<Node>)
    reads nodes
  {
    && |nodes| == |layers| + |base| && nodes[|layers|..] == base
    && head == Nth(nodes, 0)
    && (forall i, j :: 0 <= i < j < |nodes| ==> nodes[i] != nodes[j])
    && (forall i :: 0 <= i < |nodes| ==> Links(nodes, layers, i))
  }

  /** A new head in front of a list. */
  lemma Pushed(n: Node, head: Node?, nodes: seq<Node>, layers: seq<Layer>, base: seq<Node>)
    requires Built(head, nodes, layers, base)
    requires n !in nodes && n.prev == head
    ensures Built(n, [n] + nodes, [n.layer] + layers, base)
  {
    var more := [n] + nodes;
    forall i | 0 <= i < |more| ensures Links(more, [n.layer] + layers, i) {
      if i > 0 { assert Links(nodes, layers, i - 1); }
    }
  }

  class DeclParser {
    /** The tokens not yet eaten. */
    var toks: seq<Token>
    /** The spelling of the declared name, once it has been read. */
    var spel: Option<string>

    constructor (toks: seq<Token>)
      ensures this.toks == toks && spel == None
    {
      this.toks, spel := toks, None;
    }

    /** The parse ended as the grammar function says, with its layers in front of the list of `base`. */
    ghost predicate Ended(g: G.Outcome, ok: bool, head: Node?, nodes: seq<Node>, base: seq<Node>,
        spelBefore: Option<string>)
      reads this, nodes
    {
      match g
      case Error => !ok
      case Parsed(layers, name, rest) =>
        && ok && toks == rest
        && spel == (if name.Some? then name else spelBefore)
        && Built(head, nodes, layers, base)
    }

    method ReadQuals() returns (q: Quals)
      modifies this`toks
      ensures (q, toks) == G.ReadQuals(NO_QUALS, old(toks))
    {
      q := NO_QUALS;
      while toks != [] && IsQual(toks[0])
        invariant G.ReadQuals(q, toks) == G.ReadQuals(NO_QUALS, old(toks))
        decreases |toks|
      {
        q := Or(q, QualOf(toks[0]));
        toks := toks[1..];
      }
    }

    /** parsed_type_ptr: parse what is outside the pointer first, then splice the base list after it. */
    method ParsedTypePtr(mode: G.Mode, base: Node?, ghost baseNodes: seq<Node>)
      returns (ok: bool, r: Node?, ghost nodes: seq<Node>)
      requires Built(base, baseNodes, [], baseNodes)
      modifies this
      ensures Ended(G.ParseDecl(mode, old(toks)), ok, r, nodes, baseNodes, old(spel))
      ensures ok ==> forall i :: 0 <= i < |nodes| - |baseNodes| ==> fresh(nodes[i])
      decreases |toks|, 2
    {
      nodes := [];
      if !G.At(toks, Star) && !G.At(toks, Caret) {
        ok, r, nodes := ParsedTypeFuncOrArray(mode, base, baseNodes);
        return;
      }
      var block := toks[0].Caret?;
      toks := toks[1..];
      var q := ReadQuals();
      var rPtr := new Node(Pointer(block, q), null);
      ghost var sub;
      ghost var outer := G.ParseDecl(mode, toks);
      ok, r, sub := ParsedTypePtr(mode, null, []);
      if !ok { return; }
      forall n | n in sub ensures n !in baseNodes && n != rPtr { var i :| 0 <= i < |sub| && sub[i] == n; }
      Splice(rPtr, r, sub, outer.layers, base, baseNodes);
      r, nodes := rPtr, [rPtr] + (sub + baseNodes);
    }

    /** Put `rPtr` before the list `sub`, walk to its last node and hang the base list after it. */
    method Splice(rPtr: Node, head: Node?, ghost sub: seq<Node>, ghost layers: seq<Layer>,
                  base: Node?, ghost baseNodes: seq<Node>)
      requires Built(head, sub, layers, [])
      requires Built(base, baseNodes, [], baseNodes)
      requires rPtr !in baseNodes
      requires forall n :: n in sub ==> n !in baseNodes && n != rPtr
      modifies rPtr, sub
      ensures rPtr.layer == old(rPtr.layer)
      ensures Built(rPtr, [rPtr] + (sub + baseNodes), [rPtr.layer] + layers, baseNodes)
    {
      if head == null {
        rPtr.prev := base;
        assert [] + baseNodes == baseNodes;
        assert forall i :: 0 <= i < |baseNodes| ==> old(Links(baseNodes, [], i)) && Links(baseNodes, [], i);
      } else {
        SetPrev(rPtr, head, sub, layers, base, baseNodes);
        HangAfter(head, sub, layers, base, baseNodes);
      }
      Pushed(rPtr, rPtr.prev, sub + baseNodes, layers, baseNodes);
    }

    method SetPrev(rPtr: Node, head: Node, ghost sub: seq<Node>, ghost layers: seq<Layer>,
                   ghost base: Node?, ghost baseNodes: seq<Node>)
      requires Built(head, sub, layers, []) && Built(base, baseNodes, [], baseNodes)
      requires rPtr !in baseNodes && rPtr !in sub
      modifies rPtr`prev
      ensures rPtr.prev == head && Built(head, sub, layers, []) && Built(base, baseNodes, [], baseNodes)
    {
      rPtr.prev := head;
      assert forall i :: 0 <= i < |sub| ==> old(Links(sub, layers, i)) && Links(sub, layers, i);
      assert forall i :: 0 <= i < |baseNodes| ==> old(Links(baseNodes, [], i)) && Links(baseNodes, [], i);
    }

    method HangAfter(head: Node, ghost sub: seq<Node>, ghost layers: seq<Layer>, base: Node?,
        ghost baseNodes: seq<Node>)
      requires Built(head, sub, layers, [])
      requires Built(base, baseNodes, [], baseNodes)
      requires forall n :: n in sub ==> n !in baseNodes
      modifies sub
      ensures Built(head, sub + baseNodes, layers, baseNodes)
    {
      var i := head;
      ghost var k := 0;
      while i.prev != null
        invariant k < |sub| && i == sub[k]
        decreases |sub| - k
      {
        assert Links(sub, layers, k);
        i := i.prev;
        k := k + 1;
      }
      assert Links(sub, layers, k);
      assert k == |sub| - 1;
      i.prev := base;
      Disjoint(sub, baseNodes);
      forall j | 0 <= j < |sub + baseNodes| ensures Links(sub + baseNodes, layers, j) {
        if j < k {
          assert old(Links(sub, layers, j));
        } else if j > k {
          assert old(Links(baseNodes, [], j - |sub|));
          assert baseNodes[j - |sub|] !in sub;
        }
      }
    }

    static predicate Extends(nodes: seq<Node>, nodes0: seq<Node>) {
      |nodes| >= |nodes0| && nodes[|nodes| - |nodes0|..] == nodes0
    }

    static lemma Disjoint(a: seq<Node>, b: seq<Node>)
      requires forall i, j :: 0 <= i < j < |a| ==> a[i] != a[j]
      requires forall i, j :: 0 <= i < j < |b| ==> b[i] != b[j]
      requires forall n :: n in a ==> n !in b
      ensures var c := a + b; forall i, j :: 0 <= i < j < |c| ==> c[i] != c[j]
    {
      var c := a + b;
      forall i, j | 0 <= i < j < |c| ensures c[i] != c[j] {
        if i < |a| <= j { assert c[i] in a && c[j] in b; }
      }
    }

    /** parsed_type_func_or_array: suffixes of both kinds in any order, each in front of the list. */
    method ParsedTypeFuncOrArray(mode: G.Mode, base: Node?, ghost baseNodes: seq<Node>)
      returns (ok: bool, r: Node?, ghost nodes: seq<Node>)
      requires Built(base, baseNodes, [], baseNodes)
      modifies this
      ensures Ended(G.ParseFuncOrArray(mode, old(toks)), ok, r, nodes, baseNodes, old(spel))
      ensures ok ==> forall i :: 0 <= i < |nodes| - |baseNodes| ==> fresh(nodes[i])
      decreases |toks|, 1
    {
      ok, r, nodes := ParsedTypeNest(mode, base, baseNodes);
      if !ok { return; }
      ghost var layers, name := G.ParseNest(mode, old(toks)).layers, G.ParseNest(mode, old(toks)).name;
      while G.At(toks, OpenParen) || G.At(toks, OpenSquare)
        invariant Built(r, nodes, layers, baseNodes)
        invariant forall i :: 0 <= i < |layers| ==> fresh(nodes[i])
        invariant spel == (if name.Some? then name else old(spel))
        invariant G.ParseFuncOrArray(mode, old(toks)) == G.Suffixes(layers, name, toks)
        decreases |toks|
      {
        if G.At(toks, OpenParen) {
          ok, r, nodes, layers := ParsedTypeFunc(r, nodes, layers, baseNodes, name);
        } else {
          ok, r, nodes, layers := ParsedTypeArray(r, nodes, layers, baseNodes, name);
        }
        if !ok { return; }
      }
    }

    /** parsed_type_func */
    method ParsedTypeFunc(base: Node?, ghost nodes0: seq<Node>, ghost layers0: seq<Layer>, ghost baseNodes: seq<Node>,
                          ghost name: Option<string>)
      returns (ok: bool, r: Node?, ghost nodes: seq<Node>, ghost layers: seq<Layer>)
      requires Built(base, nodes0, layers0, baseNodes)
      requires G.At(toks, OpenParen)
      modifies this`toks
      ensures ok ==> Built(r, nodes, layers, baseNodes) && |toks| < |old(toks)|
      ensures ok ==> G.Suffixes(layers0, name, old(toks)) == G.Suffixes(layers, name, toks)
      ensures ok ==> Extends(nodes, nodes0) && forall i :: 0 <= i < |nodes| - |nodes0| ==> fresh(nodes[i])
      ensures !ok ==> G.Suffixes(layers0, name, old(toks)) == G.Error
    {
      ok, r, nodes, layers := true, base, nodes0, layers0;
      while G.At(toks, OpenParen)
        invariant Built(r, nodes, layers, baseNodes)
        invariant |toks| < |old(toks)| || toks == old(toks)
        invariant G.Suffixes(layers0, name, old(toks)) == G.Suffixes(layers, name, toks)
        invariant Extends(nodes, nodes0) && forall i :: 0 <= i < |nodes| - |nodes0| ==> fresh(nodes[i])
        decreases |toks|
      {
        var (p, t) := G.OptParams(toks[1..]);
        toks := t;
        if !G.At(toks, CloseParen) { return false, r, nodes, layers; }
        toks := toks[1..];
        var n := new Node(Call(p), r);
        Pushed(n, r, nodes, layers, baseNodes);
        r, nodes, layers := n, [n] + nodes, [Call(p)] + layers;
      }
    }

    /** parsed_type_array */
    method ParsedTypeArray(base: Node?, ghost nodes0: seq<Node>, ghost layers0: seq<Layer>, ghost baseNodes: seq<Node>,
                           ghost name: Option<string>)
      returns (ok: bool, r: Node?, ghost nodes: seq<Node>, ghost layers: seq<Layer>)
      requires Built(base, nodes0, layers0, baseNodes)
      requires G.At(toks, OpenSquare)
      modifies this`toks
      ensures ok ==> Built(r, nodes, layers, baseNodes) && |toks| < |old(toks)|
      ensures ok ==> G.Suffixes(layers0, name, old(toks)) == G.Suffixes(layers, name, toks)
      ensures ok ==> Extends(nodes, nodes0) && forall i :: 0 <= i < |nodes| - |nodes0| ==> fresh(nodes[i])
      ensures !ok ==> G.Suffixes(layers0, name, old(toks)) == G.Error
    {
      ok, r, nodes, layers := true, base, nodes0, layers0;
      while G.At(toks, OpenSquare)
        invariant Built(r, nodes, layers, baseNodes)
        invariant |toks| < |old(toks)| || toks == old(toks)
        invariant G.Suffixes(layers0, name, old(toks)) == G.Suffixes(layers, name, toks)
        invariant Extends(nodes, nodes0) && forall i :: 0 <= i < |nodes| - |nodes0| ==> fresh(nodes[i])
        decreases |toks|
      {
        toks := toks[1..];
        var q := ReadQuals();
        var (n, t) := G.OptSize(toks);
        toks := t;
        if !G.At(toks, CloseSquare) { return false, r, nodes, layers; }
        toks := toks[1..];
        var node := new Node(Subscript(q, n), r);
        Pushed(node, r, nodes, layers, baseNodes);
        r, nodes, layers := node, [node] + nodes, [Subscript(q, n)] + layers;
      }
    }

    /** parsed_type_nest: a parenthesised declarator, the name, or nothing. */
    method ParsedTypeNest(mode: G.Mode, base: Node?, ghost baseNodes: seq<Node>)
      returns (ok: bool, r: Node?, ghost nodes: seq<Node>)
      requires Built(base, baseNodes, [], baseNodes)
      modifies this
      ensures Ended(G.ParseNest(mode, old(toks)), ok, r, nodes, baseNodes, old(spel))
      ensures ok ==> forall i :: 0 <= i < |nodes| - |baseNodes| ==> fresh(nodes[i])
      decreases |toks|, 0
    {
      ok, r, nodes := true, base, baseNodes;
      if G.At(toks, OpenParen) {
        toks := toks[1..];
        if toks != [] && (toks[0].Params? || toks[0].CloseParen?) {
          toks := [OpenParen] + toks;
          return;
        }
        ok, r, nodes := ParsedTypePtr(mode, base, baseNodes);
        if ok {
          ok := G.At(toks, CloseParen);
          if ok { toks := toks[1..]; }
        }
      } else if toks != [] && toks[0].Ident? {
        if !mode.named { return false, null, []; }
        spel := Some(toks[0].name);
        toks := toks[1..];
      } else {
        ok := !mode.need;
      }
    }

    /** parse_type_declarator_to_type: apply the layers of the list to the base type. */
    method ParseTypeDeclaratorToType(mode: G.Mode, base: Type) returns (ty: Option<Type>)
      modifies this
      ensures match G.ParseDecl(mode, old(toks))
              case Error => ty == None
              case Parsed(layers, name, rest) =>
                ty == Some(Build(base, layers)) && toks == rest && spel == (if name.Some? then name else old(spel))
    {
      var ok, i, nodes := ParsedTypePtr(mode, null, []);
      if !ok { return None; }
      ghost var layers := G.ParseDecl(mode, old(toks)).layers;
      ghost var k := 0;
      var t := base;
      while i != null
        invariant k <= |layers| && i == Nth(nodes, k)
        invariant Build(t, layers[k..]) == Build(base, layers)
        decreases |layers| - k
      {
        assert Links(nodes, layers, k);
        t := Apply(i.layer, t);
        i := i.prev;
        k := k + 1;
      }
      ty := Some(t);
    }
  }
}
