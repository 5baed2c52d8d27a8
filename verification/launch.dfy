/**
 * The pipeline description the generators write, in the syntax of
 * `gst-launch-1.0`: each written piece and its text, and the walk over the
 * graph that both generators (`gps/player.rs` and the older
 * `gps/pipeline.rs`) perform. The walk is a function of the graph and of the
 * order in which its hash maps are iterated (`GraphXml.DocumentOrder`); the
 * generators' methods are proved to write exactly its text.
 */
module Launch {
  import opened Wrappers
  import opened Property
  import opened Port
  import opened Node
  import opened GraphData
  import opened GraphXml

  datatype Piece =
    | ElementHead(factory: string, uniqueName: string)   // `factory name=unique `
    | NodeProp(name: string, value: string)                // `name=value `
    | PortProp(port: string, name: string, value: string)  // `port::name=value `
    | BranchStart(uniqueName: string)                      // `unique. ! `
    | LinkLabel(name: string)                              // `! name `
    | Bang                                                 // `! `
    | Reference(uniqueName: string)                        // `unique. `

  function PieceText(p: Piece): string
  {
    match p
    case ElementHead(factory, u) => factory + " name=" + u + " "
    case NodeProp(k, v) => k + "=" + v + " "
    case PortProp(port, k, v) => port + "::" + k + "=" + v + " "
    case BranchStart(u) => u + ". ! "
    case LinkLabel(name) => "! " + name + " "
    case Bang => "! "
    case Reference(u) => u + ". "
  }

  /** The text of a sequence of pieces, in order. */
  function Render(ps: seq<Piece>): string
  {
    if ps == [] then "" else Render(ps[..|ps| - 1]) + PieceText(ps[|ps| - 1])
  }

  /** The text of a non-empty run is the text of all but its last piece, then the last piece's. */
  lemma RenderLast(ps: seq<Piece>)
    requires ps != []
    ensures Render(ps) == Render(ps[..|ps| - 1]) + PieceText(ps[|ps| - 1])
  {
  }

  lemma Associative<T>(x: seq<T>, y: seq<T>, z: seq<T>)
    ensures x + y + z == x + (y + z)
  {
  }

  /** Writing two runs of pieces one after the other writes their texts one after the other. */
  lemma {:induction false} RenderAppend(a: seq<Piece>, b: seq<Piece>)
    ensures Render(a + b) == Render(a) + Render(b)
    decreases |b|
  {
    if b == [] {
      assert a + b == a;
    } else {
      var ab, front, last := a + b, b[..|b| - 1], b[|b| - 1];
      assert ab[..|ab| - 1] == a + front;
      RenderLast(ab);
      RenderLast(b);
      RenderAppend(a, front);
      Associative(Render(a), Render(front), PieceText(last));
    }
  }

  /** Writing a run after what was written so far extends the text by the run's text. */
  lemma RenderExtend(d: string, ps: seq<Piece>, qs: seq<Piece>)
    ensures d + Render(ps) + Render(qs) == d + Render(ps + qs)
  {
    RenderAppend(ps, qs);
    Associative(d, Render(ps), Render(qs));
  }

  /** The unique names of the elements written, in order. */
  function Heads(ps: seq<Piece>): seq<string>
  {
    if ps == [] then []
    else Heads(ps[..|ps| - 1]) + (if ps[|ps| - 1].ElementHead? then [ps[|ps| - 1].uniqueName] else [])
  }

  lemma {:induction false} HeadsAppend(a: seq<Piece>, b: seq<Piece>)
    ensures Heads(a + b) == Heads(a) + Heads(b)
    decreases |b|
  {
    if b == [] {
      assert a + b == a;
    } else {
      assert (a + b)[..|a + b| - 1] == a + b[..|b| - 1];
      HeadsAppend(a, b[..|b| - 1]);
    }
  }

  /** A run of pieces that writes no element. */
  predicate NoHeads(ps: seq<Piece>)
  {
    forall i :: 0 <= i < |ps| ==> !ps[i].ElementHead?
  }

  lemma {:induction false} NoHeadsHeads(ps: seq<Piece>)
    requires NoHeads(ps)
    ensures Heads(ps) == []
    decreases |ps|
  {
    if ps != [] {
      NoHeadsHeads(ps[..|ps| - 1]);
    }
  }

  predicate Distinct(s: seq<string>)
  {
    forall i, j :: 0 <= i < j < |s| ==> s[i] != s[j]
  }

  /** No property written is a hidden one. */
  predicate NoHiddenWritten(ps: seq<Piece>)
  {
    forall i :: 0 <= i < |ps| ==>
      (ps[i].NodeProp? ==> !IsHidden(ps[i].name)) && (ps[i].PortProp? ==> !IsHidden(ps[i].name))
  }

  /** The name a node is known by in the description: its name followed by its id. */
  function UniqueNameOf(n: NodeValue): string
  {
    UniqueName(n.name, n.id)
  }

  /** The unique names of the graph's nodes. */
  function UniqueNames(g: GraphValue): set<string>
  {
    set k | k in g.nodes :: UniqueNameOf(g.nodes[k])
  }

  /** The unique names of the graph's `Source` nodes. */
  function SourceNames(g: GraphValue): set<string>
  {
    set k | k in g.nodes && g.nodes[k].nodeType == Source :: UniqueNameOf(g.nodes[k])
  }

  /**
   * `value.split_once(':')` keeping the second half, or the whole value when
   * it holds no `:`: the text after the first `:`.
   */
  function AfterColon(v: string): (r: string)
    ensures ':' !in v ==> r == v
    ensures ':' in v ==> |r| < |v| && v[|v| - |r| - 1] == ':' && ':' !in v[..|v| - |r| - 1] && r == v[|v| - |r|..]
  {
    if ':' in v then AfterFirstColon(v) else v
  }

  function AfterFirstColon(v: string): (r: string)
    requires ':' in v
    ensures |r| < |v| && v[|v| - |r| - 1] == ':' && ':' !in v[..|v| - |r| - 1] && r == v[|v| - |r|..]
  {
    if v[0] == ':' then v[1..]
    else
      var r := AfterFirstColon(v[1..]);
      assert v[..|v| - |r| - 1] == [v[0]] + v[1..][..|v| - 1 - |r| - 1];
      assert v[|v| - |r|..] == v[1..][|v| - 1 - |r|..];
      r
  }

  /** Writing one more piece adds its text, and its unique name when it is an element. */
  lemma Snoc(ps: seq<Piece>, x: Piece)
    ensures Render(ps + [x]) == Render(ps) + PieceText(x)
    ensures Heads(ps + [x]) == Heads(ps) + (if x.ElementHead? then [x.uniqueName] else [])
  {
    assert (ps + [x])[..|ps|] == ps;
  }

  lemma {:induction false} SubsetCard<T>(a: set<T>, b: set<T>)
    requires a <= b
    ensures |a| <= |b|
    decreases b
  {
    if a != {} {
      var x :| x in a;
      SubsetCard(a - {x}, b - {x});
    }
  }

  /**
   * Visiting a name that was not yet visited shrinks what is left to visit:
   * the measure under which the walk ends.
   */
  lemma VisitShrinks(all: set<string>, before: set<string>, t: string)
    requires t in all && t !in before
    ensures |all - (before + {t})| < |all - before|
  {
    assert all - before == (all - (before + {t})) + {t};
  }

  lemma {:induction false} NoHiddenAppend(a: seq<Piece>, b: seq<Piece>)
    requires NoHiddenWritten(a) && NoHiddenWritten(b)
    ensures NoHiddenWritten(a + b)
  {
    forall i | 0 <= i < |a + b|
      ensures ((a + b)[i].NodeProp? ==> !IsHidden((a + b)[i].name)) && ((a + b)[i].PortProp? ==> !IsHidden((a + b)[i].name))
    {
      if i < |a| {
        assert (a + b)[i] == a[i];
      } else {
        assert (a + b)[i] == b[i - |a|];
      }
    }
  }

  /**
   * The property pieces written so far: one `name=value ` for each visible
   * key no longer pending, none twice, with the value as `shown` gives it.
   */
  ghost predicate PropsWritten(shown: map<string, string>, pending: set<string>, ps: seq<Piece>)
  {
    NoHeads(ps) && NoHiddenWritten(ps)
    && (forall i :: 0 <= i < |ps| ==>
          ps[i].NodeProp? && ps[i].name in shown && ps[i].name !in pending && ps[i].value == shown[ps[i].name])
    && (forall k :: k in shown && k !in pending && !IsHidden(k) ==> NodeProp(k, shown[k]) in ps)
    && (forall i, j :: 0 <= i < j < |ps| ==> ps[i].name != ps[j].name)
  }

  /** Taking one more key: written when visible, skipped when hidden. */
  lemma PropsWrittenStep(shown: map<string, string>, pending: set<string>, ps: seq<Piece>, k: string)
    requires PropsWritten(shown, pending, ps) && k in pending && k in shown
    ensures PropsWritten(shown, pending - {k}, if IsHidden(k) then ps else ps + [NodeProp(k, shown[k])])
  {
    if !IsHidden(k) {
      var qs := ps + [NodeProp(k, shown[k])];
      assert forall i :: 0 <= i < |ps| ==> qs[i] == ps[i];
    }
  }

  /**
   * A run of pieces that writes only elements not visited before, none
   * twice and each a node of the graph, and no hidden property; the visited
   * names grow by exactly the elements written.
   */
  ghost predicate WroteNew(g: GraphValue, before: set<string>, after: set<string>, ps: seq<Piece>)
  {
    Distinct(Heads(ps))
    && (forall u :: u in Heads(ps) ==> u !in before && u in UniqueNames(g))
    && (forall u :: u in after <==> u in before || u in Heads(ps))
    && NoHiddenWritten(ps)
  }

  /**
   * What one visit writes: the visited node's element first, then only
   * elements not visited before, none twice, each a node of the graph.
   */
  ghost predicate VisitWrote(g: GraphValue, head: string, before: set<string>, after: set<string>, ps: seq<Piece>)
  {
    var hs := Heads(ps);
    |hs| > 0 && hs[0] == head && head in UniqueNames(g)
    && Distinct(hs[1..])
    && (forall i :: 1 <= i < |hs| ==> hs[i] !in before && hs[i] != head && hs[i] in UniqueNames(g))
    && (forall u :: u in after <==> u in before || u in hs)
    && NoHiddenWritten(ps)
  }

  lemma WroteNothing(g: GraphValue, before: set<string>, ps: seq<Piece>)
    requires NoHeads(ps) && NoHiddenWritten(ps)
    ensures WroteNew(g, before, before, ps)
  {
    NoHeadsHeads(ps);
  }

  lemma WroteNewAppend(g: GraphValue, a: set<string>, b: set<string>, c: set<string>, ps: seq<Piece>, qs: seq<Piece>)
    requires WroteNew(g, a, b, ps) && WroteNew(g, b, c, qs)
    ensures WroteNew(g, a, c, ps + qs)
  {
    HeadsAppend(ps, qs);
    NoHiddenAppend(ps, qs);
    var h, hp, hq := Heads(ps + qs), Heads(ps), Heads(qs);
    forall i, j | 0 <= i < j < |h|
      ensures h[i] != h[j]
    {
      if j < |hp| {
        assert h[i] == hp[i] && h[j] == hp[j];
      } else if i < |hp| {
        assert h[i] == hp[i] && h[j] == hq[j - |hp|];
        assert hp[i] in b;
      } else {
        assert h[i] == hq[i - |hp|] && h[j] == hq[j - |hp|];
      }
    }
  }

  /** The heads of a visit start with its own element, followed by the new ones. */
  lemma VisitStart(g: GraphValue, head: string, factory: string, before: set<string>, ps: seq<Piece>)
    requires ps == [ElementHead(factory, head)] && head in UniqueNames(g)
    ensures VisitWrote(g, head, before, before + {head}, ps)
  {
    Snoc([], ps[0]);
    assert [] + ps == ps;
  }

  lemma VisitAppend(g: GraphValue, head: string, a: set<string>, b: set<string>, c: set<string>, ps: seq<Piece>, qs: seq<Piece>)
    requires VisitWrote(g, head, a, b, ps) && WroteNew(g, b, c, qs)
    ensures VisitWrote(g, head, a, c, ps + qs)
  {
    HeadsAppend(ps, qs);
    NoHiddenAppend(ps, qs);
    var h, hp, hq := Heads(ps + qs), Heads(ps), Heads(qs);
    assert h[1..] == hp[1..] + hq;
    assert head in b;
    forall i, j | 1 <= i < j < |h|
      ensures h[i] != h[j]
    {
      if j < |hp| {
        assert h[i] == hp[i] && h[j] == hp[j];
      } else if i < |hp| {
        assert h[i] == hp[i] && h[j] == hq[j - |hp|];
        assert hp[i] in b;
      } else {
        assert h[i] == hq[i - |hp|] && h[j] == hq[j - |hp|];
      }
    }
    forall i | 1 <= i < |h|
      ensures h[i] !in a && h[i] != head && h[i] in UniqueNames(g)
    {
      if i >= |hp| {
        assert h[i] == hq[i - |hp|];
      } else {
        assert h[i] == hp[i];
      }
    }
  }

  /** A visit of a node not visited before writes only new elements. */
  lemma VisitIsNew(g: GraphValue, head: string, a: set<string>, b: set<string>, ps: seq<Piece>)
    requires VisitWrote(g, head, a, b, ps) && head !in a
    ensures WroteNew(g, a, b, ps)
  {
    var hs := Heads(ps);
    forall i, j | 0 <= i < j < |hs|
      ensures hs[i] != hs[j]
    {
      if i > 0 {
        assert hs[i] == hs[1..][i - 1] && hs[j] == hs[1..][j - 1];
      }
    }
  }

  /** The pieces the older generator writes: no port property and no link name. */
  predicate OlderPieces(ps: seq<Piece>)
  {
    forall i :: 0 <= i < |ps| ==> !ps[i].PortProp? && !ps[i].LinkLabel?
  }

  lemma OlderPiecesAppend(ps: seq<Piece>, qs: seq<Piece>)
    requires OlderPieces(ps) && OlderPieces(qs)
    ensures OlderPieces(ps + qs)
  {
    forall i | 0 <= i < |ps + qs|
      ensures !(ps + qs)[i].PortProp? && !(ps + qs)[i].LinkLabel?
    {
      if i < |ps| {
        assert (ps + qs)[i] == ps[i];
      } else {
        assert (ps + qs)[i] == qs[i - |ps|];
      }
    }
  }

  // The walk of the two generators.

  /**
   * The generator of `gps/player.rs` and the older one of `gps/pipeline.rs`.
   * The older one cuts property values after their first `:` and writes
   * neither port properties nor link names.
   */
  datatype Generator = PlayerGenerator | PipelineGenerator

  /** The value a generator writes for a property. */
  function Shown(gen: Generator, v: string): string
  {
    if gen.PipelineGenerator? then AfterColon(v) else v
  }

  function ShownProps(gen: Generator, props: Properties): (shown: map<string, string>)
    ensures shown.Keys == props.Keys
    ensures forall k :: k in props ==> shown[k] == Shown(gen, props[k])
  {
    map k | k in props :: Shown(gen, props[k])
  }

  /** The set of the listed keys. */
  function KeySet<K>(keys: seq<K>): set<K>
  {
    set k | k in keys
  }

  /** `name=value ` for each listed key that is not hidden, in the listed order. */
  function PropPieces(shown: map<string, string>, keys: seq<string>): seq<Piece>
    requires forall k :: k in keys ==> k in shown
  {
    if keys == [] then []
    else
      var k := keys[|keys| - 1];
      PropPieces(shown, keys[..|keys| - 1]) + (if IsHidden(k) then [] else [NodeProp(k, shown[k])])
  }

  /**
   * Listing distinct keys writes each visible one exactly once, with its
   * value, and nothing else.
   */
  lemma {:induction false} PropPiecesWritten(shown: map<string, string>, keys: seq<string>)
    requires forall k :: k in keys ==> k in shown
    requires forall i, j :: 0 <= i < j < |keys| ==> keys[i] != keys[j]
    ensures PropsWritten(shown, shown.Keys - KeySet(keys), PropPieces(shown, keys))
    decreases |keys|
  {
    if keys != [] {
      var front, k := keys[..|keys| - 1], keys[|keys| - 1];
      PropPiecesWritten(shown, front);
      KeysLast(shown.Keys, keys);
      var pending, ps := shown.Keys - KeySet(front), PropPieces(shown, front);
      PropsWrittenStep(shown, pending, ps, k);
      assert PropPieces(shown, keys) == if IsHidden(k) then ps else ps + [NodeProp(k, shown[k])];
    }
  }

  /** With every key of the map listed, every visible property is written, once. */
  lemma PropPiecesComplete(shown: map<string, string>, keys: seq<string>)
    requires Enumerates(keys, shown.Keys)
    ensures PropsWritten(shown, {}, PropPieces(shown, keys))
  {
    PropPiecesWritten(shown, keys);
    assert shown.Keys - KeySet(keys) == {};
  }

  /** Listing one more key writes `name=value ` for it, unless it is hidden. */
  lemma PropPiecesNext(shown: map<string, string>, keys: seq<string>, i: nat)
    requires forall k :: k in keys ==> k in shown
    requires i < |keys|
    ensures Render(PropPieces(shown, keys[..i + 1]))
      == Render(PropPieces(shown, keys[..i])) + (if IsHidden(keys[i]) then "" else PieceText(NodeProp(keys[i], shown[keys[i]])))
  {
    var k := keys[i];
    assert keys[..i + 1][..i] == keys[..i];
    if IsHidden(k) {
      assert PropPieces(shown, keys[..i + 1]) == PropPieces(shown, keys[..i]);
      assert Render(PropPieces(shown, keys[..i])) + "" == Render(PropPieces(shown, keys[..i]));
    } else {
      Snoc(PropPieces(shown, keys[..i]), NodeProp(k, shown[k]));
    }
  }

  /** `port::name=value ` for each listed key of the port that is not hidden. */
  function PortPropPieces(p: PortValue, keys: seq<string>): seq<Piece>
    requires forall k :: k in keys ==> k in p.properties
  {
    if keys == [] then []
    else
      var k := keys[|keys| - 1];
      PortPropPieces(p, keys[..|keys| - 1]) + (if IsHidden(k) then [] else [PortProp(p.name, k, p.properties[k])])
  }

  /** Listing one more key of a port writes `port::name=value ` for it, unless it is hidden. */
  lemma PortPropPiecesNext(p: PortValue, keys: seq<string>, i: nat)
    requires forall k :: k in keys ==> k in p.properties
    requires i < |keys|
    ensures Render(PortPropPieces(p, keys[..i + 1]))
      == Render(PortPropPieces(p, keys[..i]))
         + (if IsHidden(keys[i]) then "" else PieceText(PortProp(p.name, keys[i], p.properties[keys[i]])))
  {
    var k := keys[i];
    assert keys[..i + 1][..i] == keys[..i];
    if IsHidden(k) {
      assert PortPropPieces(p, keys[..i + 1]) == PortPropPieces(p, keys[..i]);
      assert Render(PortPropPieces(p, keys[..i])) + "" == Render(PortPropPieces(p, keys[..i]));
    } else {
      Snoc(PortPropPieces(p, keys[..i]), PortProp(p.name, k, p.properties[k]));
    }
  }

  /**
   * The port-property pieces of one port written so far: one for each
   * visible key no longer pending, none twice, with the port's value.
   */
  ghost predicate PortPropsWritten(p: PortValue, pending: set<string>, ps: seq<Piece>)
  {
    NoHeads(ps) && NoHiddenWritten(ps)
    && (forall i :: 0 <= i < |ps| ==>
          ps[i].PortProp? && ps[i].port == p.name && ps[i].name in p.properties && ps[i].name !in pending
          && ps[i].value == p.properties[ps[i].name])
    && (forall k :: k in p.properties && k !in pending && !IsHidden(k) ==> PortProp(p.name, k, p.properties[k]) in ps)
    && (forall i, j :: 0 <= i < j < |ps| ==> ps[i].name != ps[j].name)
  }

  /** Listing distinct keys of a port writes each visible one exactly once. */
  lemma {:induction false} PortPropPiecesWritten(p: PortValue, keys: seq<string>)
    requires forall k :: k in keys ==> k in p.properties
    requires forall i, j :: 0 <= i < j < |keys| ==> keys[i] != keys[j]
    ensures PortPropsWritten(p, p.properties.Keys - KeySet(keys), PortPropPieces(p, keys))
    decreases |keys|
  {
    if keys != [] {
      var front, k := keys[..|keys| - 1], keys[|keys| - 1];
      PortPropPiecesWritten(p, front);
      KeysLast(p.properties.Keys, keys);
      var pending, ps := p.properties.Keys - KeySet(front), PortPropPieces(p, front);
      PortPropsWrittenStep(p, pending, ps, k);
      assert PortPropPieces(p, keys) == if IsHidden(k) then ps else ps + [PortProp(p.name, k, p.properties[k])];
    }
  }

  lemma PortPropsWrittenStep(p: PortValue, pending: set<string>, ps: seq<Piece>, k: string)
    requires PortPropsWritten(p, pending, ps) && k in pending && k in p.properties
    ensures PortPropsWritten(p, pending - {k}, if IsHidden(k) then ps else ps + [PortProp(p.name, k, p.properties[k])])
  {
    if !IsHidden(k) {
      var qs := ps + [PortProp(p.name, k, p.properties[k])];
      assert forall i :: 0 <= i < |ps| ==> qs[i] == ps[i];
    }
  }

  /** The last of distinct keys is not among the others, and listing it takes it out of what is pending. */
  lemma KeysLast(all: set<string>, keys: seq<string>)
    requires keys != [] && forall i, j :: 0 <= i < j < |keys| ==> keys[i] != keys[j]
    ensures keys[|keys| - 1] !in keys[..|keys| - 1]
    ensures all - KeySet(keys[..|keys| - 1]) - {keys[|keys| - 1]} == all - KeySet(keys)
  {
    var front, k := keys[..|keys| - 1], keys[|keys| - 1];
    forall i | 0 <= i < |front|
      ensures front[i] != k
    {
      assert front[i] == keys[i];
    }
    assert forall x :: x in keys <==> x in front || x == k;
  }

  /** The port properties of the listed ports, port after port. */
  function AllPortPropPieces(n: NodeValue, ports: seq<nat>, portProps: map<nat, seq<string>>): seq<Piece>
    requires forall p :: p in ports ==> p in n.ports && p in portProps
    requires forall p :: p in ports ==> forall k :: k in portProps[p] ==> k in n.ports[p].properties
  {
    if ports == [] then []
    else
      var p := ports[|ports| - 1];
      AllPortPropPieces(n, ports[..|ports| - 1], portProps) + PortPropPieces(n.ports[p], portProps[p])
  }

  /** The piece writes a visible property of one of the listed ports, under that port's name. */
  ghost predicate PortPropOf(n: NodeValue, ports: seq<nat>, x: Piece)
  {
    x.PortProp? && !IsHidden(x.name)
    && exists q :: q in ports && q in n.ports && n.ports[q].name == x.port
         && x.name in n.ports[q].properties && x.value == n.ports[q].properties[x.name]
  }

  /** No two ports of the node share a name. */
  ghost predicate PortNamesDistinct(n: NodeValue)
  {
    forall a, b :: a in n.ports && b in n.ports && n.ports[a].name == n.ports[b].name ==> a == b
  }

  /**
   * What the port-property loop writes for the listed ports: only visible
   * properties of those ports, every one of them, and (when the node's ports
   * have distinct names) none twice.
   */
  ghost predicate AllPortPropsWritten(n: NodeValue, ports: seq<nat>, ps: seq<Piece>)
  {
    NoHeads(ps) && NoHiddenWritten(ps)
    && (forall i :: 0 <= i < |ps| ==> PortPropOf(n, ports, ps[i]))
    && (forall q, k :: q in ports && q in n.ports && k in n.ports[q].properties && !IsHidden(k) ==>
          PortProp(n.ports[q].name, k, n.ports[q].properties[k]) in ps)
    && (PortNamesDistinct(n) ==>
          forall i, j :: 0 <= i < j < |ps| ==> ps[i].port != ps[j].port || ps[i].name != ps[j].name)
  }

  lemma {:induction false} AllPortPropPiecesWritten(n: NodeValue, ports: seq<nat>, portProps: map<nat, seq<string>>)
    requires forall i, j :: 0 <= i < j < |ports| ==> ports[i] != ports[j]
    requires forall p :: p in ports ==> p in n.ports && p in portProps
    requires forall p :: p in ports ==> forall k :: k in portProps[p] ==> k in n.ports[p].properties
    requires forall p :: p in ports ==> Enumerates(portProps[p], n.ports[p].properties.Keys)
    ensures AllPortPropsWritten(n, ports, AllPortPropPieces(n, ports, portProps))
    decreases |ports|
  {
    if ports != [] {
      var front, p := ports[..|ports| - 1], ports[|ports| - 1];
      AllPortPropPiecesWritten(n, front, portProps);
      assert p !in front by {
        forall i | 0 <= i < |front|
          ensures front[i] != p
        {
          assert front[i] == ports[i];
        }
      }
      PortPropPiecesWritten(n.ports[p], portProps[p]);
      assert n.ports[p].properties.Keys - KeySet(portProps[p]) == {};
      assert front + [p] == ports;
      AllPortPropsWrittenStep(n, front, p, AllPortPropPieces(n, front, portProps), PortPropPieces(n.ports[p], portProps[p]));
    }
  }

  /** The pieces of one more port, each of its visible properties once, keep the account of the port-property loop. */
  lemma AllPortPropsWrittenStep(n: NodeValue, front: seq<nat>, p: nat, ps: seq<Piece>, qs: seq<Piece>)
    requires p in n.ports && p !in front
    requires AllPortPropsWritten(n, front, ps) && PortPropsWritten(n.ports[p], {}, qs)
    ensures AllPortPropsWritten(n, front + [p], ps + qs)
  {
    var ports := front + [p];
    NoHiddenAppend(ps, qs);
    forall i | 0 <= i < |ps + qs|
      ensures PortPropOf(n, ports, (ps + qs)[i])
    {
      if i < |ps| {
        assert (ps + qs)[i] == ps[i];
        var x := ps[i];
        var q :| q in front && q in n.ports && n.ports[q].name == x.port
          && x.name in n.ports[q].properties && x.value == n.ports[q].properties[x.name];
        assert q in ports;
      } else {
        assert (ps + qs)[i] == qs[i - |ps|];
        assert p in ports;
      }
    }
    forall q, k | q in ports && q in n.ports && k in n.ports[q].properties && !IsHidden(k)
      ensures PortProp(n.ports[q].name, k, n.ports[q].properties[k]) in ps + qs
    {
      if q != p {
        assert q in front;
      }
    }
    if PortNamesDistinct(n) {
      forall i, j | 0 <= i < j < |ps + qs|
        ensures (ps + qs)[i].port != (ps + qs)[j].port || (ps + qs)[i].name != (ps + qs)[j].name
      {
        if j < |ps| {
          assert (ps + qs)[i] == ps[i] && (ps + qs)[j] == ps[j];
        } else if i >= |ps| {
          assert (ps + qs)[i] == qs[i - |ps|] && (ps + qs)[j] == qs[j - |ps|];
        } else {
          assert (ps + qs)[i] == ps[i] && (ps + qs)[j] == qs[j - |ps|];
          var x := ps[i];
          var q :| q in front && q in n.ports && n.ports[q].name == x.port
            && x.name in n.ports[q].properties && x.value == n.ports[q].properties[x.name];
          assert q != p;
        }
      }
    }
  }

  /** The port properties a generator writes for a node: all of them for the player, none for the older one. */
  function PortPieces(gen: Generator, n: NodeValue, no: NodeOrder): seq<Piece>
    requires NodeOrderFits(n, no)
  {
    if gen.PlayerGenerator? then AllPortPropPieces(n, no.ports, no.portProps) else []
  }

  /**
   * What `process_gst_node` writes before a link's target: `unique. ! ` when
   * the node has several outputs, else `! `, after `! linkname ` when the
   * link is named and the generator writes link names.
   */
  function Marker(gen: Generator, un: string, nPorts: nat, linkName: string): (ms: seq<Piece>)
    ensures NoHeads(ms) && NoHiddenWritten(ms)
    ensures nPorts > 1 <==> ms == [BranchStart(un)]
    ensures nPorts <= 1 ==> |ms| > 0 && ms[|ms| - 1] == Bang
    ensures LinkLabel(linkName) in ms <==> gen.PlayerGenerator? && nPorts <= 1 && linkName != ""
    ensures gen.PipelineGenerator? ==> OlderPieces(ms)
  {
    if nPorts > 1 then [BranchStart(un)]
    else if gen.PlayerGenerator? && linkName != "" then [LinkLabel(linkName), Bang]
    else [Bang]
  }

  /** What a part of the walk wrote, and the unique names visited once it is done. */
  datatype Walk = Walk(pieces: seq<Piece>, visited: set<string>)

  /** `all_ports(Output).len()`: the number of the node's output ports. */
  function OutputCount(n: NodeValue): nat
  {
    |set p | p in n.ports && n.ports[p].direction == Output|
  }

  /**
   * `process_gst_node` on node `nodeId` with the names visited so far: the
   * node's element, its visible properties, its ports' visible properties
   * (player only), then what each of its output ports writes, in the ports
   * map's order. The walk ends because each visit adds a unique name of the
   * graph that was not visited before.
   */
  function Visit(gen: Generator, g: GraphValue, o: DocumentOrder, nodeId: nat, elements: set<string>): (w: Walk)
    requires DocumentOrderFits(g, o) && nodeId in g.nodes
    ensures elements + {UniqueNameOf(g.nodes[nodeId])} <= w.visited
    decreases |UniqueNames(g) - (elements + {UniqueNameOf(g.nodes[nodeId])})|, 2, 0
  {
    var n, no := g.nodes[nodeId], o.nodeOrders[nodeId];
    var un := UniqueNameOf(n);
    var outs := Outputs(gen, g, o, nodeId, OutputCount(n), no.ports, elements + {un});
    Walk([ElementHead(n.name, un)] + PropPieces(ShownProps(gen, n.properties), no.props) + PortPieces(gen, n, no)
           + outs.pieces,
         outs.visited)
  }

  /** The output loop of `process_gst_node` over the listed ports; ports that are not outputs write nothing. */
  function Outputs(gen: Generator, g: GraphValue, o: DocumentOrder, nodeId: nat, nPorts: nat, ports: seq<nat>,
                   elements: set<string>): (w: Walk)
    requires DocumentOrderFits(g, o) && nodeId in g.nodes
    requires forall p :: p in ports ==> p in g.nodes[nodeId].ports
    ensures elements <= w.visited
    decreases |UniqueNames(g) - elements|, 1, |ports|
  {
    if ports == [] then Walk([], elements)
    else
      var n := g.nodes[nodeId];
      var first :=
        if n.ports[ports[0]].direction == Output
        then FromPort(gen, g, o, UniqueNameOf(n), nPorts, ports[0], elements)
        else Walk([], elements);
      SubsetCard(UniqueNames(g) - first.visited, UniqueNames(g) - elements);
      var rest := Outputs(gen, g, o, nodeId, nPorts, ports[1..], first.visited);
      Walk(first.pieces + rest.pieces, rest.visited)
  }

  /**
   * One output port: nothing when no link leaves it; otherwise the marker
   * and the target of the first link leaving it in the links map's order
   * (the link both `port_connected_to` and `port_link` find).
   */
  function FromPort(gen: Generator, g: GraphValue, o: DocumentOrder, un: string, nPorts: nat, portId: nat,
                  elements: set<string>): (w: Walk)
    requires DocumentOrderFits(g, o)
    ensures elements <= w.visited
    decreases |UniqueNames(g) - elements|, 0, 1
  {
    match FirstLinkFrom(g.links, o.links, portId)
    case None => Walk([], elements)
    case Some(l) =>
      var t := Target(gen, g, o, g.links[l].nodeTo, elements);
      Walk(Marker(gen, un, nPorts, g.links[l].name) + t.pieces, t.visited)
  }

  /** A link's target: nothing when it is no node, `target. ` when visited before, else its visit. */
  function Target(gen: Generator, g: GraphValue, o: DocumentOrder, nodeTo: nat, elements: set<string>): (w: Walk)
    requires DocumentOrderFits(g, o)
    ensures elements <= w.visited
    decreases |UniqueNames(g) - elements|, 0, 0
  {
    if nodeTo !in g.nodes then Walk([], elements)
    else
      var tu := UniqueNameOf(g.nodes[nodeTo]);
      if tu in elements then Walk([Reference(tu)], elements)
      else
        VisitShrinks(UniqueNames(g), elements, tu);
        Visit(gen, g, o, nodeTo, elements)
  }

  /** The loop over the `Source` nodes, in the listed order, sharing the visited names. */
  function Sources(gen: Generator, g: GraphValue, o: DocumentOrder, nodes: seq<nat>, elements: set<string>): (w: Walk)
    requires DocumentOrderFits(g, o) && forall k :: k in nodes ==> k in g.nodes
    decreases |nodes|
  {
    if nodes == [] then Walk([], elements)
    else
      var first :=
        if g.nodes[nodes[0]].nodeType == Source then Visit(gen, g, o, nodes[0], elements) else Walk([], elements);
      var rest := Sources(gen, g, o, nodes[1..], first.visited);
      Walk(first.pieces + rest.pieces, rest.visited)
  }

  /**
   * `pipeline_description_from_graphview` and `render_gst_launch`: one visit
   * per `Source` node in the nodes map's order, starting with nothing visited.
   */
  function Description(gen: Generator, g: GraphValue, o: DocumentOrder): seq<Piece>
    requires DocumentOrderFits(g, o)
  {
    Sources(gen, g, o, o.nodes, {}).pieces
  }

  // What the walk writes.

  /** The text of a marker: a branch start, else a link label for the player generator, then a bang. */
  lemma MarkerText(gen: Generator, un: string, nPorts: nat, linkName: string)
    ensures Render(Marker(gen, un, nPorts, linkName))
      == if nPorts > 1 then un + ". ! "
         else if gen.PlayerGenerator? && linkName != "" then ("! " + linkName + " ") + "! "
         else "! "
  {
    if nPorts > 1 {
      RenderOne(BranchStart(un));
    } else if gen.PlayerGenerator? && linkName != "" {
      var ms := [LinkLabel(linkName), Bang];
      RenderLast(ms);
      assert ms[..1] == [LinkLabel(linkName)];
      RenderOne(LinkLabel(linkName));
    } else {
      RenderOne(Bang);
    }
  }

  lemma RenderOne(x: Piece)
    ensures Render([x]) == PieceText(x)
  {
    RenderLast([x]);
    assert [x][..0] == [];
    assert "" + PieceText(x) == PieceText(x);
  }

  /** The text of an output port a link leaves: the marker, then the text of the link's target. */
  lemma FromPortText(gen: Generator, g: GraphValue, o: DocumentOrder, un: string, nPorts: nat, portId: nat,
                     elements: set<string>, d: string)
    requires DocumentOrderFits(g, o) && FirstLinkFrom(g.links, o.links, portId).Some?
    ensures var link := g.links[FirstLinkFrom(g.links, o.links, portId).value];
      var t := Target(gen, g, o, link.nodeTo, elements);
      d + Render(FromPort(gen, g, o, un, nPorts, portId, elements).pieces)
      == d + Render(Marker(gen, un, nPorts, link.name)) + Render(t.pieces)
      && FromPort(gen, g, o, un, nPorts, portId, elements).visited == t.visited
  {
    var link := g.links[FirstLinkFrom(g.links, o.links, portId).value];
    RenderExtend(d, Marker(gen, un, nPorts, link.name), Target(gen, g, o, link.nodeTo, elements).pieces);
  }

  /** A target already written is referred to by its unique name. */
  lemma ReferenceText(gen: Generator, g: GraphValue, o: DocumentOrder, nodeTo: nat, elements: set<string>, d: string)
    requires DocumentOrderFits(g, o) && nodeTo in g.nodes && UniqueNameOf(g.nodes[nodeTo]) in elements
    ensures d + Render(Target(gen, g, o, nodeTo, elements).pieces) == d + (UniqueNameOf(g.nodes[nodeTo]) + ". ")
    ensures Target(gen, g, o, nodeTo, elements).visited == elements
  {
    var tu := UniqueNameOf(g.nodes[nodeTo]);
    assert Target(gen, g, o, nodeTo, elements) == Walk([Reference(tu)], elements);
    RenderOne(Reference(tu));
  }

  /** The text of a visit: the element, its properties, its ports' properties, then what its output ports lead to. */
  lemma VisitText(gen: Generator, g: GraphValue, o: DocumentOrder, nodeId: nat, elements: set<string>, d: string)
    requires DocumentOrderFits(g, o) && nodeId in g.nodes
    ensures var n, no := g.nodes[nodeId], o.nodeOrders[nodeId];
      var un := UniqueNameOf(n);
      d + Render(Visit(gen, g, o, nodeId, elements).pieces)
      == d + PieceText(ElementHead(n.name, un)) + Render(PropPieces(ShownProps(gen, n.properties), no.props))
         + Render(PortPieces(gen, n, no))
         + Render(Outputs(gen, g, o, nodeId, OutputCount(n), no.ports, elements + {un}).pieces)
  {
    var n, no := g.nodes[nodeId], o.nodeOrders[nodeId];
    var un := UniqueNameOf(n);
    var outs := Outputs(gen, g, o, nodeId, OutputCount(n), no.ports, elements + {un});
    assert Visit(gen, g, o, nodeId, elements).pieces
      == [ElementHead(n.name, un)] + PropPieces(ShownProps(gen, n.properties), no.props) + PortPieces(gen, n, no)
         + outs.pieces;
    RenderRun(d, ElementHead(n.name, un), PropPieces(ShownProps(gen, n.properties), no.props), PortPieces(gen, n, no),
      outs.pieces);
  }

  /** The text of a piece followed by three runs. */
  lemma RenderRun(d: string, h: Piece, a: seq<Piece>, b: seq<Piece>, c: seq<Piece>)
    ensures d + Render([h] + a + b + c) == d + PieceText(h) + Render(a) + Render(b) + Render(c)
  {
    var p, ra, rb, rc := PieceText(h), Render(a), Render(b), Render(c);
    assert Render([h]) == p by {
      RenderLast([h]);
      assert [h][..0] == [];
    }
    RenderAppend([h] + a + b, c);
    RenderAppend([h] + a, b);
    RenderAppend([h], a);
    assert Render([h] + a + b + c) == p + ra + rb + rc;
    Associative(d, p + ra + rb, rc);
    Associative(d, p + ra, rb);
    Associative(d, p, ra);
  }

  /**
   * After a node's element come its visible properties, each once with the
   * value the generator shows, then (player generator only) the visible
   * properties of all its ports, each once; the links follow.
   */
  lemma VisitProperties(gen: Generator, g: GraphValue, o: DocumentOrder, nodeId: nat, elements: set<string>)
    requires DocumentOrderFits(g, o) && nodeId in g.nodes
    ensures var n, no := g.nodes[nodeId], o.nodeOrders[nodeId];
      var w := Visit(gen, g, o, nodeId, elements);
      var props, pp := PropPieces(ShownProps(gen, n.properties), no.props), PortPieces(gen, n, no);
      |w.pieces| >= 1 + |props| + |pp| && w.pieces[0] == ElementHead(n.name, UniqueNameOf(n))
      && w.pieces[1..1 + |props|] == props && PropsWritten(ShownProps(gen, n.properties), {}, props)
      && w.pieces[1 + |props|..1 + |props| + |pp|] == pp
      && (gen.PlayerGenerator? ==> AllPortPropsWritten(n, no.ports, pp))
      && (gen.PipelineGenerator? ==> pp == [])
  {
    var n, no := g.nodes[nodeId], o.nodeOrders[nodeId];
    var shown := ShownProps(gen, n.properties);
    var props, pp := PropPieces(shown, no.props), PortPieces(gen, n, no);
    var outs := Outputs(gen, g, o, nodeId, OutputCount(n), no.ports, elements + {UniqueNameOf(n)});
    var ps := [ElementHead(n.name, UniqueNameOf(n))] + props + pp + outs.pieces;
    assert Visit(gen, g, o, nodeId, elements).pieces == ps;
    assert ps[1..1 + |props|] == props;
    assert ps[1 + |props|..1 + |props| + |pp|] == pp;
    PropPiecesComplete(shown, no.props);
    if gen.PlayerGenerator? {
      AllPortPropPiecesWritten(n, no.ports, no.portProps);
    }
  }

  /** The element, properties and port properties of a visit: its own element first, no other, no hidden property. */
  lemma VisitHead(gen: Generator, g: GraphValue, o: DocumentOrder, nodeId: nat, elements: set<string>)
    requires DocumentOrderFits(g, o) && nodeId in g.nodes
    ensures var n, no := g.nodes[nodeId], o.nodeOrders[nodeId];
      var pre := [ElementHead(n.name, UniqueNameOf(n))] + PropPieces(ShownProps(gen, n.properties), no.props)
        + PortPieces(gen, n, no);
      VisitWrote(g, UniqueNameOf(n), elements, elements + {UniqueNameOf(n)}, pre)
      && (gen.PipelineGenerator? ==> OlderPieces(pre))
  {
    var n, no := g.nodes[nodeId], o.nodeOrders[nodeId];
    var un := UniqueNameOf(n);
    var el := elements + {un};
    assert un in UniqueNames(g);
    var hs := [ElementHead(n.name, un)];
    VisitStart(g, un, n.name, elements, hs);
    var shown := ShownProps(gen, n.properties);
    var props := PropPieces(shown, no.props);
    PropPiecesComplete(shown, no.props);
    WroteNothing(g, el, props);
    VisitAppend(g, un, elements, el, el, hs, props);
    var pp := PortPieces(gen, n, no);
    if gen.PlayerGenerator? {
      AllPortPropPiecesWritten(n, no.ports, no.portProps);
    }
    WroteNothing(g, el, pp);
    VisitAppend(g, un, elements, el, el, hs + props, pp);
    if gen.PipelineGenerator? {
      OlderPiecesAppend(hs, props);
      OlderPiecesAppend(hs + props, pp);
    }
  }

  /**
   * A visit writes the node's element first, then only elements not visited
   * before, none twice, each a node of the graph, and no hidden property; the
   * visited names grow by exactly the elements written.
   */
  lemma {:induction false} VisitFacts(gen: Generator, g: GraphValue, o: DocumentOrder, nodeId: nat, elements: set<string>)
    requires DocumentOrderFits(g, o) && nodeId in g.nodes
    ensures var n, w := g.nodes[nodeId], Visit(gen, g, o, nodeId, elements);
      |w.pieces| > 0 && w.pieces[0] == ElementHead(n.name, UniqueNameOf(n))
      && VisitWrote(g, UniqueNameOf(n), elements, w.visited, w.pieces)
      && (gen.PipelineGenerator? ==> OlderPieces(w.pieces))
    decreases |UniqueNames(g) - (elements + {UniqueNameOf(g.nodes[nodeId])})|, 2, 0
  {
    var n, no := g.nodes[nodeId], o.nodeOrders[nodeId];
    var un := UniqueNameOf(n);
    var el := elements + {un};
    var pre := [ElementHead(n.name, un)] + PropPieces(ShownProps(gen, n.properties), no.props) + PortPieces(gen, n, no);
    VisitHead(gen, g, o, nodeId, elements);
    OutputsFacts(gen, g, o, nodeId, OutputCount(n), no.ports, el);
    var outs := Outputs(gen, g, o, nodeId, OutputCount(n), no.ports, el);
    VisitAppend(g, un, elements, el, outs.visited, pre, outs.pieces);
    if gen.PipelineGenerator? {
      OlderPiecesAppend(pre, outs.pieces);
    }
    assert Visit(gen, g, o, nodeId, elements).pieces == pre + outs.pieces;
  }

  /** The output loop writes only elements not visited before, none twice, and no hidden property. */
  lemma {:induction false} OutputsFacts(gen: Generator, g: GraphValue, o: DocumentOrder, nodeId: nat, nPorts: nat,
                                        ports: seq<nat>, elements: set<string>)
    requires DocumentOrderFits(g, o) && nodeId in g.nodes
    requires forall p :: p in ports ==> p in g.nodes[nodeId].ports
    ensures var w := Outputs(gen, g, o, nodeId, nPorts, ports, elements);
      WroteNew(g, elements, w.visited, w.pieces) && (gen.PipelineGenerator? ==> OlderPieces(w.pieces))
    decreases |UniqueNames(g) - elements|, 1, |ports|
  {
    if ports == [] {
      WroteNothing(g, elements, []);
    } else {
      var n := g.nodes[nodeId];
      var first :=
        if n.ports[ports[0]].direction == Output
        then FromPort(gen, g, o, UniqueNameOf(n), nPorts, ports[0], elements)
        else Walk([], elements);
      if n.ports[ports[0]].direction == Output {
        OutputFacts(gen, g, o, UniqueNameOf(n), nPorts, ports[0], elements);
      } else {
        WroteNothing(g, elements, []);
      }
      SubsetCard(UniqueNames(g) - first.visited, UniqueNames(g) - elements);
      OutputsFacts(gen, g, o, nodeId, nPorts, ports[1..], first.visited);
      var rest := Outputs(gen, g, o, nodeId, nPorts, ports[1..], first.visited);
      WroteNewAppend(g, elements, first.visited, rest.visited, first.pieces, rest.pieces);
      if gen.PipelineGenerator? {
        OlderPiecesAppend(first.pieces, rest.pieces);
      }
    }
  }

  lemma {:induction false} OutputFacts(gen: Generator, g: GraphValue, o: DocumentOrder, un: string, nPorts: nat,
                                       portId: nat, elements: set<string>)
    requires DocumentOrderFits(g, o)
    ensures var w := FromPort(gen, g, o, un, nPorts, portId, elements);
      WroteNew(g, elements, w.visited, w.pieces) && (gen.PipelineGenerator? ==> OlderPieces(w.pieces))
    decreases |UniqueNames(g) - elements|, 0, 1
  {
    match FirstLinkFrom(g.links, o.links, portId)
    case None =>
      WroteNothing(g, elements, []);
    case Some(l) =>
      var ms := Marker(gen, un, nPorts, g.links[l].name);
      TargetFacts(gen, g, o, g.links[l].nodeTo, elements);
      var t := Target(gen, g, o, g.links[l].nodeTo, elements);
      WroteNothing(g, elements, ms);
      WroteNewAppend(g, elements, elements, t.visited, ms, t.pieces);
      if gen.PipelineGenerator? {
        OlderPiecesAppend(ms, t.pieces);
      }
  }

  lemma {:induction false} TargetFacts(gen: Generator, g: GraphValue, o: DocumentOrder, nodeTo: nat, elements: set<string>)
    requires DocumentOrderFits(g, o)
    ensures var w := Target(gen, g, o, nodeTo, elements);
      WroteNew(g, elements, w.visited, w.pieces) && (gen.PipelineGenerator? ==> OlderPieces(w.pieces))
    decreases |UniqueNames(g) - elements|, 0, 0
  {
    if nodeTo !in g.nodes {
      WroteNothing(g, elements, []);
    } else {
      var tu := UniqueNameOf(g.nodes[nodeTo]);
      if tu in elements {
        var rs := [Reference(tu)];
        assert NoHeads(rs) && NoHiddenWritten(rs);
        WroteNothing(g, elements, rs);
      } else {
        assert tu in UniqueNames(g);
        VisitShrinks(UniqueNames(g), elements, tu);
        VisitFacts(gen, g, o, nodeTo, elements);
        var w := Visit(gen, g, o, nodeTo, elements);
        VisitIsNew(g, tu, elements, w.visited, w.pieces);
      }
    }
  }

  /**
   * What the generators write for a graph: the pieces of a description, each
   * element at most once except a `Source` node reached again from the top,
   * every element a node of the graph, every `Source` node written, and no
   * hidden property.
   */
  ghost predicate PipelineOf(g: GraphValue, description: string, ps: seq<Piece>)
  {
    description == Render(ps)
    && (forall u :: u in Heads(ps) ==> u in UniqueNames(g))
    && (forall u :: u in SourceNames(g) ==> u in Heads(ps))
    && (forall i, j :: 0 <= i < j < |Heads(ps)| && Heads(ps)[i] == Heads(ps)[j] ==> Heads(ps)[j] in SourceNames(g))
    && NoHiddenWritten(ps)
    && (ps == [] <==> SourceNames(g) == {})
  }

  /** The loop over the `Source` nodes so far: what `PipelineOf` asks, for the sources done. */
  ghost predicate SourcesWrote(g: GraphValue, done: set<string>, elements: set<string>, ps: seq<Piece>)
  {
    (forall u :: u in elements <==> u in Heads(ps))
    && (forall u :: u in Heads(ps) ==> u in UniqueNames(g))
    && (forall u :: u in done ==> u in Heads(ps))
    && (forall i, j :: 0 <= i < j < |Heads(ps)| && Heads(ps)[i] == Heads(ps)[j] ==> Heads(ps)[j] in SourceNames(g))
    && NoHiddenWritten(ps)
  }

  /** One more source visited keeps the loop's account. */
  lemma SourcesWroteStep(g: GraphValue, done: set<string>, elements: set<string>, ps: seq<Piece>,
                         head: string, after: set<string>, qs: seq<Piece>)
    requires SourcesWrote(g, done, elements, ps)
    requires VisitWrote(g, head, elements, after, qs) && head in SourceNames(g)
    ensures SourcesWrote(g, done + {head}, after, ps + qs)
  {
    HeadsAppend(ps, qs);
    NoHiddenAppend(ps, qs);
    var h, hp, hq := Heads(ps + qs), Heads(ps), Heads(qs);
    forall i, j | 0 <= i < j < |h| && h[i] == h[j]
      ensures h[j] in SourceNames(g)
    {
      if j < |hp| {
        assert h[i] == hp[i] && h[j] == hp[j];
      } else if j == |hp| {
        assert h[j] == hq[0];
      } else {
        assert false;
      }
    }
    assert head == hq[0] && hq[0] == h[|hp|];
  }

  /** The unique names of the `Source` nodes among the listed ones. */
  function SourcesIn(g: GraphValue, nodes: seq<nat>): set<string>
  {
    set k | k in nodes && k in g.nodes && g.nodes[k].nodeType == Source :: UniqueNameOf(g.nodes[k])
  }

  /** The text of the walk from the `i`-th listed node: that node's visit when it is a `Source`, then the rest. */
  lemma SourcesText(gen: Generator, g: GraphValue, o: DocumentOrder, nodes: seq<nat>, i: nat, elements: set<string>,
                    d: string)
    requires DocumentOrderFits(g, o) && (forall k :: k in nodes ==> k in g.nodes) && i < |nodes|
    ensures var first :=
        if g.nodes[nodes[i]].nodeType == Source then Visit(gen, g, o, nodes[i], elements) else Walk([], elements);
      d + Render(Sources(gen, g, o, nodes[i..], elements).pieces)
      == d + Render(first.pieces) + Render(Sources(gen, g, o, nodes[i + 1..], first.visited).pieces)
  {
    assert nodes[i..][0] == nodes[i] && nodes[i..][1..] == nodes[i + 1..];
    var first :=
      if g.nodes[nodes[i]].nodeType == Source then Visit(gen, g, o, nodes[i], elements) else Walk([], elements);
    RenderExtend(d, first.pieces, Sources(gen, g, o, nodes[i + 1..], first.visited).pieces);
  }

  /** The `Source` names among a non-empty list: those of its first node and of the rest. */
  lemma SourcesInFirst(g: GraphValue, nodes: seq<nat>, done: set<string>)
    requires nodes != [] && nodes[0] in g.nodes
    ensures SourcesIn(g, nodes)
      == (if g.nodes[nodes[0]].nodeType == Source then {UniqueNameOf(g.nodes[nodes[0]])} else {}) + SourcesIn(g, nodes[1..])
    ensures done + SourcesIn(g, nodes)
      == done + (if g.nodes[nodes[0]].nodeType == Source then {UniqueNameOf(g.nodes[nodes[0]])} else {})
         + SourcesIn(g, nodes[1..])
  {
    assert forall j :: j in nodes <==> j == nodes[0] || j in nodes[1..];
  }

  /** The first listed node keeps the loop's account: visited when it is a `Source`, skipped otherwise. */
  lemma SourcesFirst(gen: Generator, g: GraphValue, o: DocumentOrder, k: nat, done: set<string>, elements: set<string>,
                     ps: seq<Piece>)
    requires DocumentOrderFits(g, o) && k in g.nodes
    requires SourcesWrote(g, done, elements, ps)
    ensures var first := if g.nodes[k].nodeType == Source then Visit(gen, g, o, k, elements) else Walk([], elements);
      SourcesWrote(g, done + (if g.nodes[k].nodeType == Source then {UniqueNameOf(g.nodes[k])} else {}), first.visited,
        ps + first.pieces)
  {
    var un := UniqueNameOf(g.nodes[k]);
    if g.nodes[k].nodeType == Source {
      assert un in SourceNames(g);
      VisitFacts(gen, g, o, k, elements);
      var first := Visit(gen, g, o, k, elements);
      SourcesWroteStep(g, done, elements, ps, un, first.visited, first.pieces);
    } else {
      assert ps + [] == ps;
      assert done + {} == done;
    }
  }

  /** Visiting the listed `Source` nodes after `ps` keeps the loop's account. */
  lemma {:induction false} SourcesFacts(gen: Generator, g: GraphValue, o: DocumentOrder, nodes: seq<nat>,
                                        done: set<string>, elements: set<string>, ps: seq<Piece>)
    requires DocumentOrderFits(g, o) && forall k :: k in nodes ==> k in g.nodes
    requires SourcesWrote(g, done, elements, ps)
    ensures var w := Sources(gen, g, o, nodes, elements);
      SourcesWrote(g, done + SourcesIn(g, nodes), w.visited, ps + w.pieces)
    decreases |nodes|
  {
    if nodes == [] {
      assert ps + [] == ps;
      assert SourcesIn(g, nodes) == {};
      assert done + {} == done;
    } else {
      var k := nodes[0];
      var first :=
        if g.nodes[k].nodeType == Source then Visit(gen, g, o, k, elements) else Walk([], elements);
      var now := if g.nodes[k].nodeType == Source then {UniqueNameOf(g.nodes[k])} else {};
      SourcesFirst(gen, g, o, k, done, elements, ps);
      SourcesFacts(gen, g, o, nodes[1..], done + now, first.visited, ps + first.pieces);
      var rest := Sources(gen, g, o, nodes[1..], first.visited);
      assert Sources(gen, g, o, nodes, elements) == Walk(first.pieces + rest.pieces, rest.visited);
      Associative(ps, first.pieces, rest.pieces);
      SourcesInFirst(g, nodes, done);
    }
  }

  /** The walk writes something exactly when a `Source` node is listed; the older generator only its own kinds of piece. */
  lemma {:induction false} SourcesShape(gen: Generator, g: GraphValue, o: DocumentOrder, nodes: seq<nat>,
                                        elements: set<string>)
    requires DocumentOrderFits(g, o) && forall k :: k in nodes ==> k in g.nodes
    ensures var w := Sources(gen, g, o, nodes, elements);
      (w.pieces == [] <==> SourcesIn(g, nodes) == {})
      && (gen.PipelineGenerator? ==> OlderPieces(w.pieces))
    decreases |nodes|
  {
    if nodes == [] {
      assert SourcesIn(g, nodes) == {};
    } else {
      var k := nodes[0];
      var first :=
        if g.nodes[k].nodeType == Source then Visit(gen, g, o, k, elements) else Walk([], elements);
      if g.nodes[k].nodeType == Source {
        VisitFacts(gen, g, o, k, elements);
      }
      SourcesShape(gen, g, o, nodes[1..], first.visited);
      var rest := Sources(gen, g, o, nodes[1..], first.visited);
      assert Sources(gen, g, o, nodes, elements) == Walk(first.pieces + rest.pieces, rest.visited);
      SourcesInFirst(g, nodes, {});
      if gen.PipelineGenerator? {
        OlderPiecesAppend(first.pieces, rest.pieces);
      }
    }
  }

  /** Both generators write a pipeline of the graph, whatever the maps' order; the older one only its own kinds of piece. */
  lemma DescriptionIsPipeline(gen: Generator, g: GraphValue, o: DocumentOrder)
    requires DocumentOrderFits(g, o)
    ensures PipelineOf(g, Render(Description(gen, g, o)), Description(gen, g, o))
    ensures gen.PipelineGenerator? ==> OlderPieces(Description(gen, g, o))
  {
    SourcesFacts(gen, g, o, o.nodes, {}, {}, []);
    SourcesShape(gen, g, o, o.nodes, {});
    assert [] + Description(gen, g, o) == Description(gen, g, o);
    SourcesInAll(g, o);
  }

  /** Listing all the graph's nodes lists all its `Source` nodes. */
  lemma SourcesInAll(g: GraphValue, o: DocumentOrder)
    requires DocumentOrderFits(g, o)
    ensures SourcesIn(g, o.nodes) == SourceNames(g)
  {
  }

  // The links the walk follows.

  /** No two nodes share a unique name (see `Node.UniqueNameCollision`). */
  ghost predicate NamesDistinct(g: GraphValue)
  {
    forall a, b :: a in g.nodes && b in g.nodes && UniqueNameOf(g.nodes[a]) == UniqueNameOf(g.nodes[b]) ==> a == b
  }

  /** The node the walk goes on to from an output port: the target of the first link leaving it, if a node. */
  function FollowedTarget(g: GraphValue, o: DocumentOrder, portId: nat): (r: Option<nat>)
    requires DocumentOrderFits(g, o)
    ensures r.Some? ==> r.value in g.nodes
    ensures r.Some? <==>
      exists k :: k in g.links && g.links[k].portFrom == portId && g.links[k].nodeTo in g.nodes
        && FirstLinkFrom(g.links, o.links, portId) == Some(k)
  {
    match FirstLinkFrom(g.links, o.links, portId)
    case None => None
    case Some(l) => if g.links[l].nodeTo in g.nodes then Some(g.links[l].nodeTo) else None
  }

  /** Every output port of node `k` leads, when it leads to a node, to a name in `visited`. */
  ghost predicate OutputsFollowed(g: GraphValue, o: DocumentOrder, k: nat, visited: set<string>)
    requires DocumentOrderFits(g, o) && k in g.nodes
  {
    forall p :: p in g.nodes[k].ports && g.nodes[k].ports[p].direction == Output && FollowedTarget(g, o, p).Some? ==>
      UniqueNameOf(g.nodes[FollowedTarget(g, o, p).value]) in visited
  }

  /** Every node first visited between `before` and `after` had its output ports followed by `after`. */
  ghost predicate Closed(g: GraphValue, o: DocumentOrder, before: set<string>, after: set<string>)
    requires DocumentOrderFits(g, o)
  {
    forall k :: k in g.nodes && UniqueNameOf(g.nodes[k]) in after && UniqueNameOf(g.nodes[k]) !in before ==>
      OutputsFollowed(g, o, k, after)
  }

  lemma ClosedTrans(g: GraphValue, o: DocumentOrder, a: set<string>, b: set<string>, c: set<string>)
    requires DocumentOrderFits(g, o) && Closed(g, o, a, b) && Closed(g, o, b, c) && b <= c
    ensures Closed(g, o, a, c)
  {
    forall k | k in g.nodes && UniqueNameOf(g.nodes[k]) in c && UniqueNameOf(g.nodes[k]) !in a
      ensures OutputsFollowed(g, o, k, c)
    {
      if UniqueNameOf(g.nodes[k]) in b {
        assert OutputsFollowed(g, o, k, b);
      }
    }
  }

  /** A visit follows every output port of every node it visits. */
  lemma {:induction false} VisitClosed(gen: Generator, g: GraphValue, o: DocumentOrder, nodeId: nat, elements: set<string>)
    requires DocumentOrderFits(g, o) && nodeId in g.nodes && NamesDistinct(g)
    ensures Closed(g, o, elements, Visit(gen, g, o, nodeId, elements).visited)
    decreases |UniqueNames(g) - (elements + {UniqueNameOf(g.nodes[nodeId])})|, 2, 0
  {
    var n, no := g.nodes[nodeId], o.nodeOrders[nodeId];
    var un := UniqueNameOf(n);
    var el := elements + {un};
    OutputsClosed(gen, g, o, nodeId, OutputCount(n), no.ports, el);
    var visited := Outputs(gen, g, o, nodeId, OutputCount(n), no.ports, el).visited;
    assert Visit(gen, g, o, nodeId, elements).visited == visited;
    assert OutputsFollowed(g, o, nodeId, visited) by {
      assert forall p :: p in n.ports ==> p in no.ports;
    }
    ClosedAdd(g, o, elements, nodeId, visited);
  }

  /** A node whose output ports are all followed may join the nodes a walk has visited. */
  lemma ClosedAdd(g: GraphValue, o: DocumentOrder, elements: set<string>, nodeId: nat, visited: set<string>)
    requires DocumentOrderFits(g, o) && nodeId in g.nodes && NamesDistinct(g)
    requires Closed(g, o, elements + {UniqueNameOf(g.nodes[nodeId])}, visited) && OutputsFollowed(g, o, nodeId, visited)
    ensures Closed(g, o, elements, visited)
  {
    forall k | k in g.nodes && UniqueNameOf(g.nodes[k]) in visited && UniqueNameOf(g.nodes[k]) !in elements
      ensures OutputsFollowed(g, o, k, visited)
    {
      if UniqueNameOf(g.nodes[k]) == UniqueNameOf(g.nodes[nodeId]) {
        assert k == nodeId;
      }
    }
  }

  lemma {:induction false} OutputsClosed(gen: Generator, g: GraphValue, o: DocumentOrder, nodeId: nat, nPorts: nat,
                                         ports: seq<nat>, elements: set<string>)
    requires DocumentOrderFits(g, o) && nodeId in g.nodes && NamesDistinct(g)
    requires forall p :: p in ports ==> p in g.nodes[nodeId].ports
    ensures var w := Outputs(gen, g, o, nodeId, nPorts, ports, elements);
      Closed(g, o, elements, w.visited)
      && forall p :: p in ports && g.nodes[nodeId].ports[p].direction == Output && FollowedTarget(g, o, p).Some? ==>
           UniqueNameOf(g.nodes[FollowedTarget(g, o, p).value]) in w.visited
    decreases |UniqueNames(g) - elements|, 1, |ports|
  {
    if ports != [] {
      var n := g.nodes[nodeId];
      var first :=
        if n.ports[ports[0]].direction == Output
        then FromPort(gen, g, o, UniqueNameOf(n), nPorts, ports[0], elements)
        else Walk([], elements);
      if n.ports[ports[0]].direction == Output {
        OutputClosed(gen, g, o, UniqueNameOf(n), nPorts, ports[0], elements);
      }
      SubsetCard(UniqueNames(g) - first.visited, UniqueNames(g) - elements);
      OutputsClosed(gen, g, o, nodeId, nPorts, ports[1..], first.visited);
      var rest := Outputs(gen, g, o, nodeId, nPorts, ports[1..], first.visited);
      ClosedTrans(g, o, elements, first.visited, rest.visited);
      forall p | p in ports && n.ports[p].direction == Output && FollowedTarget(g, o, p).Some?
        ensures UniqueNameOf(g.nodes[FollowedTarget(g, o, p).value]) in rest.visited
      {
        if p != ports[0] {
          assert p in ports[1..];
        }
      }
    }
  }

  lemma {:induction false} OutputClosed(gen: Generator, g: GraphValue, o: DocumentOrder, un: string, nPorts: nat,
                                        portId: nat, elements: set<string>)
    requires DocumentOrderFits(g, o) && NamesDistinct(g)
    ensures var w := FromPort(gen, g, o, un, nPorts, portId, elements);
      Closed(g, o, elements, w.visited)
      && (FollowedTarget(g, o, portId).Some? ==> UniqueNameOf(g.nodes[FollowedTarget(g, o, portId).value]) in w.visited)
    decreases |UniqueNames(g) - elements|, 0, 1
  {
    match FirstLinkFrom(g.links, o.links, portId)
    case None =>
    case Some(l) =>
      TargetClosed(gen, g, o, g.links[l].nodeTo, elements);
  }

  lemma {:induction false} TargetClosed(gen: Generator, g: GraphValue, o: DocumentOrder, nodeTo: nat, elements: set<string>)
    requires DocumentOrderFits(g, o) && NamesDistinct(g)
    ensures var w := Target(gen, g, o, nodeTo, elements);
      Closed(g, o, elements, w.visited) && (nodeTo in g.nodes ==> UniqueNameOf(g.nodes[nodeTo]) in w.visited)
    decreases |UniqueNames(g) - elements|, 0, 0
  {
    if nodeTo in g.nodes {
      var tu := UniqueNameOf(g.nodes[nodeTo]);
      if tu !in elements {
        assert tu in UniqueNames(g);
        VisitShrinks(UniqueNames(g), elements, tu);
        VisitClosed(gen, g, o, nodeTo, elements);
      }
    }
  }

  lemma {:induction false} SourcesClosed(gen: Generator, g: GraphValue, o: DocumentOrder, nodes: seq<nat>, elements: set<string>)
    requires DocumentOrderFits(g, o) && NamesDistinct(g) && forall k :: k in nodes ==> k in g.nodes
    ensures var w := Sources(gen, g, o, nodes, elements);
      elements <= w.visited && Closed(g, o, elements, w.visited)
    decreases |nodes|
  {
    if nodes != [] {
      var k := nodes[0];
      var first :=
        if g.nodes[k].nodeType == Source then Visit(gen, g, o, k, elements) else Walk([], elements);
      if g.nodes[k].nodeType == Source {
        VisitClosed(gen, g, o, k, elements);
      }
      SourcesClosed(gen, g, o, nodes[1..], first.visited);
      ClosedTrans(g, o, elements, first.visited, Sources(gen, g, o, nodes[1..], first.visited).visited);
    }
  }

  /** The walk goes from node `a` to node `b`: a link leaving an output port of `a` that it follows leads to `b`. */
  ghost predicate FollowedStep(g: GraphValue, o: DocumentOrder, a: nat, b: nat)
    requires DocumentOrderFits(g, o)
  {
    a in g.nodes
    && exists p :: p in g.nodes[a].ports && g.nodes[a].ports[p].direction == Output && FollowedTarget(g, o, p) == Some(b)
  }

  /** A chain of nodes, each reached from the one before along a followed link. */
  ghost predicate FollowedPath(g: GraphValue, o: DocumentOrder, path: seq<nat>)
    requires DocumentOrderFits(g, o)
  {
    |path| > 0
    && (forall i :: 0 <= i < |path| ==> path[i] in g.nodes)
    && (forall i :: 0 <= i < |path| - 1 ==> FollowedStep(g, o, path[i], path[i + 1]))
  }

  /**
   * Every node reachable from a `Source` node along the links the walk
   * follows is written, when no two nodes share a unique name.
   */
  lemma DescriptionReachesAll(gen: Generator, g: GraphValue, o: DocumentOrder, path: seq<nat>)
    requires DocumentOrderFits(g, o) && NamesDistinct(g)
    requires FollowedPath(g, o, path) && g.nodes[path[0]].nodeType == Source
    ensures forall i :: 0 <= i < |path| ==> UniqueNameOf(g.nodes[path[i]]) in Heads(Description(gen, g, o))
  {
    var w := Sources(gen, g, o, o.nodes, {});
    SourcesFacts(gen, g, o, o.nodes, {}, {}, []);
    assert [] + w.pieces == w.pieces;
    SourcesClosed(gen, g, o, o.nodes, {});
    SourcesInAll(g, o);
    assert UniqueNameOf(g.nodes[path[0]]) in SourceNames(g);
    PathClosed(g, o, w.visited, path);
  }

  /** A set of visited nodes closed under the links followed holds every node of a path from one of them. */
  lemma PathClosed(g: GraphValue, o: DocumentOrder, visited: set<string>, path: seq<nat>)
    requires DocumentOrderFits(g, o) && Closed(g, o, {}, visited)
    requires FollowedPath(g, o, path) && UniqueNameOf(g.nodes[path[0]]) in visited
    ensures forall i :: 0 <= i < |path| ==> UniqueNameOf(g.nodes[path[i]]) in visited
  {
    var i := 0;
    while i < |path| - 1
      invariant 0 <= i < |path|
      invariant forall j :: 0 <= j <= i ==> UniqueNameOf(g.nodes[path[j]]) in visited
    {
      assert FollowedStep(g, o, path[i], path[i + 1]);
      var p :| p in g.nodes[path[i]].ports && g.nodes[path[i]].ports[p].direction == Output
        && FollowedTarget(g, o, p) == Some(path[i + 1]);
      assert OutputsFollowed(g, o, path[i], visited);
      i := i + 1;
    }
  }
}
