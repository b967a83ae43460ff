/** Inherited attributes of a syntax tree: one pass with a stack against rescanning all ancestors. */
module FileConfigurations {
  import opened Wrappers
  import opened Facts
  import opened Configuration

  datatype Attr = Attr(meta: Option<Meta>, name: Option<string>, text: string)

  /** A syntax node. Attributes are nodes too; id is the node's position, so no two nodes share one. */
  datatype Node = Node(id: nat, attr: Option<Attr>, children: seq<Node>)

  datatype Event = Enter(node: Node) | Leave(node: Node)

  // ---- the specification: look at every ancestor ----

  /** Conditions of the attributes directly inside some children, in order. */
  ghost function Metas(children: seq<Node>): seq<Meta> {
    if children == [] then []
    else
      var last := children[|children| - 1];
      Metas(children[..|children| - 1]) + if last.attr.Some? && last.attr.value.meta.Some? then [last.attr.value.meta.value] else []
  }

  ghost function CfgTexts(children: seq<Node>): seq<string> {
    if children == [] then []
    else
      var last := children[|children| - 1];
      CfgTexts(children[..|children| - 1]) + if IsCfg(last) then [last.attr.value.text] else []
  }

  predicate IsCfg(node: Node) {
    node.attr.Some? && (node.attr.value.name == Some("cfg") || node.attr.value.name == Some("cfg_attr"))
  }

  /** A chain of nodes from the root, each a child of the one before. */
  ghost predicate IsPath(root: Node, path: seq<Node>) {
    path != [] && path[0] == root && forall i :: 0 < i < |path| ==> path[i] in path[i - 1].children
  }

  /** All conditions on a path, innermost node first. */
  ghost function PathMetas(path: seq<Node>): seq<Meta> {
    if path == [] then [] else Metas(path[|path| - 1].children) + PathMetas(path[..|path| - 1])
  }

  ghost function PathCfg(path: seq<Node>): seq<string> {
    if path == [] then [] else CfgTexts(path[|path| - 1].children) + PathCfg(path[..|path| - 1])
  }

  ghost function StatusOf(s: Settings, metas: seq<Meta>): CfgStatus {
    Combine(seq(|metas|, i requires 0 <= i < |metas| => MetaStatus(s, metas[i])), false)
  }

  ghost predicate AnyUnavailable(s: Settings, metas: seq<Meta>) {
    exists i :: 0 <= i < |metas| && AttributeUnavailable(s, metas[i])
  }

  // ---- the walk ----

  function Events(node: Node): seq<Event>
    decreases node, 1
  {
    [Enter(node)] + EventsOf(node, |node.children|) + [Leave(node)]
  }

  /** The events of the first n children. */
  function EventsOf(node: Node, n: nat): seq<Event>
    requires n <= |node.children|
    decreases node, 0, n
  {
    if n == 0 then [] else EventsOf(node, n - 1) + Events(node.children[n - 1])
  }

  /** The nodes entered and not yet left. */
  ghost function Open(events: seq<Event>): seq<Node> {
    if events == [] then []
    else
      var before, last := Open(events[..|events| - 1]), events[|events| - 1];
      match last
      case Enter(node) => before + [node]
      case Leave(_) => if before == [] then [] else before[..|before| - 1]
  }

  lemma OpenEnter(prefix: seq<Event>, node: Node)
    ensures Open(prefix + [Enter(node)]) == Open(prefix) + [node]
  {
    assert (prefix + [Enter(node)])[..|prefix|] == prefix;
  }

  lemma OpenLeave(prefix: seq<Event>, node: Node, open: seq<Node>)
    requires Open(prefix) == open + [node]
    ensures Open(prefix + [Leave(node)]) == open
  {
    assert (prefix + [Leave(node)])[..|prefix|] == prefix;
    assert (open + [node])[..|open|] == open;
  }

  /** A whole subtree leaves the open nodes as they were. */
  lemma {:induction false} Balanced(prefix: seq<Event>, node: Node)
    ensures Open(prefix + Events(node)) == Open(prefix)
    decreases node, 1
  {
    var inside := EventsOf(node, |node.children|);
    OpenEnter(prefix, node);
    BalancedChildren(prefix + [Enter(node)], node, |node.children|);
    OpenLeave(prefix + [Enter(node)] + inside, node, Open(prefix));
    assert prefix + Events(node) == prefix + [Enter(node)] + inside + [Leave(node)];
  }

  lemma {:induction false} BalancedChildren(prefix: seq<Event>, node: Node, n: nat)
    requires n <= |node.children|
    ensures Open(prefix + EventsOf(node, n)) == Open(prefix)
    decreases node, 0, n
  {
    if n == 0 {
      assert prefix + EventsOf(node, 0) == prefix;
    } else {
      var before, last := EventsOf(node, n - 1), Events(node.children[n - 1]);
      BalancedChildren(prefix, node, n - 1);
      Balanced(prefix + before, node.children[n - 1]);
      Associate(prefix, before, last);
    }
  }

  /** The events of the first k children come before those of the others. */
  lemma {:induction false} EventsOfSplit(node: Node, k: nat, n: nat) returns (rest: seq<Event>)
    requires k <= n <= |node.children|
    ensures EventsOf(node, n) == EventsOf(node, k) + rest
    decreases n
  {
    if k == n {
      rest := [];
    } else {
      var init := EventsOfSplit(node, k, n - 1);
      rest := init + Events(node.children[n - 1]);
      Associate(EventsOf(node, k), init, Events(node.children[n - 1]));
    }
  }

  /** The events of child k start after those of its elder siblings. */
  lemma ChildEvents(node: Node, k: nat) returns (rest: seq<Event>)
    requires k < |node.children|
    ensures Events(node) == [Enter(node)] + EventsOf(node, k) + Events(node.children[k]) + rest
  {
    var later := EventsOfSplit(node, k + 1, |node.children|);
    rest := later + [Leave(node)];
    Surround([Enter(node)], EventsOf(node, k), Events(node.children[k]), later, [Leave(node)]);
  }

  lemma Surround<T>(a: seq<T>, b: seq<T>, c: seq<T>, d: seq<T>, e: seq<T>)
    ensures a + ((b + c) + d) + e == a + b + c + (d + e)
  {
    assert a + ((b + c) + d) + e == a + b + c + (d + e);
  }

  lemma TakeInside(before: seq<Event>, inner: seq<Event>, rest: seq<Event>, j: nat)
    requires j < |inner|
    ensures (before + inner + rest)[|before| + j] == inner[j]
    ensures (before + inner + rest)[..|before| + j] == before + inner[..j]
  {
  }

  lemma BeforeChild(prefix: seq<Event>, node: Node, k: nat)
    requires k < |node.children|
    ensures Open(prefix + ([Enter(node)] + EventsOf(node, k))) == Open(prefix) + [node]
  {
    OpenEnter(prefix, node);
    BalancedChildren(prefix + [Enter(node)], node, k);
    assert prefix + [Enter(node)] + EventsOf(node, k) == prefix + ([Enter(node)] + EventsOf(node, k));
  }

  lemma PathTail(path: seq<Node>)
    requires |path| > 1
    ensures path[..|path| - 1] == [path[0]] + path[1..][..|path| - 2]
  {
  }

  /** Every node on a path is entered when exactly its ancestors are open. */
  lemma {:induction false} PathIsEntered(prefix: seq<Event>, node: Node, path: seq<Node>) returns (j: nat)
    requires IsPath(node, path)
    ensures j < |Events(node)| && Events(node)[j] == Enter(path[|path| - 1])
    ensures Open(prefix + Events(node)[..j]) == Open(prefix) + path[..|path| - 1]
    decreases |path|
  {
    if |path| == 1 {
      j := 0;
      assert prefix + Events(node)[..0] == prefix && path[..0] == [];
    } else {
      assert path[1] in path[0].children;
      var k :| 0 <= k < |node.children| && node.children[k] == path[1];
      TailIsPath(node, path);
      var inner := PathIsEntered(prefix + ([Enter(node)] + EventsOf(node, k)), path[1], path[1..]);
      BeforeChild(prefix, node, k);
      j := InsideChild(prefix, node, k, inner);
      PathTail(path);
    }
  }

  lemma TailIsPath(node: Node, path: seq<Node>)
    requires IsPath(node, path) && |path| > 1
    ensures IsPath(path[1], path[1..])
  {
    assert forall i :: 0 < i < |path| ==> path[i] in path[i - 1].children;
  }

  /** Position inner of child k, seen from its parent. */
  lemma InsideChild(prefix: seq<Event>, node: Node, k: nat, inner: nat) returns (j: nat)
    requires k < |node.children| && inner < |Events(node.children[k])|
    ensures j < |Events(node)| && Events(node)[j] == Events(node.children[k])[inner]
    ensures prefix + Events(node)[..j] == prefix + ([Enter(node)] + EventsOf(node, k)) + Events(node.children[k])[..inner]
  {
    var before := [Enter(node)] + EventsOf(node, k);
    var rest := ChildEvents(node, k);
    TakeInside(before, Events(node.children[k]), rest, inner);
    j := |before| + inner;
  }

  /** A node is left only while it is open. */
  lemma {:induction false} LeftIsOpen(prefix: seq<Event>, node: Node, j: nat)
    requires j < |Events(node)| && Events(node)[j].Leave?
    ensures Open(prefix + Events(node)[..j]) != []
    decreases node, 1
  {
    var inside := EventsOf(node, |node.children|);
    OpenEnter(prefix, node);
    if j == |inside| + 1 {
      BalancedChildren(prefix + [Enter(node)], node, |node.children|);
      assert prefix + Events(node)[..j] == prefix + [Enter(node)] + inside;
    } else {
      assert inside[j - 1] == Events(node)[j];
      LeftInside(prefix + [Enter(node)], node, |node.children|, j - 1);
      assert prefix + Events(node)[..j] == prefix + [Enter(node)] + inside[..j - 1];
    }
  }

  lemma {:induction false} LeftInside(prefix: seq<Event>, node: Node, n: nat, j: nat)
    requires n <= |node.children| && j < |EventsOf(node, n)| && EventsOf(node, n)[j].Leave?
    ensures Open(prefix + EventsOf(node, n)[..j]) != []
    decreases node, 0, n
  {
    var elder := EventsOf(node, n - 1);
    if j < |elder| {
      LeftInside(prefix, node, n - 1, j);
      assert EventsOf(node, n)[..j] == elder[..j];
    } else {
      LeftIsOpen(prefix + elder, node.children[n - 1], j - |elder|);
      assert prefix + EventsOf(node, n)[..j] == prefix + elder + Events(node.children[n - 1])[..j - |elder|];
    }
  }

  // ---- inherited settings ----

  datatype Inherited = Inherited(status: CfgStatus, macroUnavailable: bool, cfg: Option<nat>)

  datatype CfgEntry = CfgEntry(attributes: seq<string>, parent: Option<nat>)

  datatype Cache = Cache(nodes: map<nat, Inherited>, cfg: seq<CfgEntry>)

  const DEFAULT := Inherited(Active, false, None)

  /** Parents in the arena come before their children. */
  ghost predicate Descending(arena: seq<CfgEntry>) {
    forall i :: 0 <= i < |arena| && arena[i].parent.Some? ==> arena[i].parent.value < i
  }

  ghost predicate InArena(arena: seq<CfgEntry>, at: Option<nat>) {
    at.Some? ==> at.value < |arena|
  }

  /** The attributes found by following parents. */
  ghost function Listed(arena: seq<CfgEntry>, at: Option<nat>): seq<string>
    requires Descending(arena) && InArena(arena, at)
    decreases if at.Some? then at.value + 1 else 0
  {
    if at.None? then [] else arena[at.value].attributes + Listed(arena, arena[at.value].parent)
  }

  lemma {:induction false} ArenaGrows(arena: seq<CfgEntry>, next: CfgEntry, at: Option<nat>)
    requires Descending(arena) && InArena(arena, at) && InArena(arena, next.parent)
    ensures Descending(arena + [next]) && Listed(arena + [next], at) == Listed(arena, at)
    decreases if at.Some? then at.value + 1 else 0
  {
    if at.Some? {
      ArenaGrows(arena, next, arena[at.value].parent);
    }
  }

  /** The inherited settings of a path are what rescanning its nodes gives. */
  ghost predicate Represents(s: Settings, arena: seq<CfgEntry>, path: seq<Node>, inherited: Inherited) {
    && inherited.status == StatusOf(s, PathMetas(path))
    && (inherited.macroUnavailable <==> AnyUnavailable(s, PathMetas(path)))
    && Descending(arena) && InArena(arena, inherited.cfg) && Listed(arena, inherited.cfg) == PathCfg(path)
  }

  lemma GrowsRepresents(s: Settings, arena: seq<CfgEntry>, next: CfgEntry, path: seq<Node>, inherited: Inherited)
    requires Represents(s, arena, path, inherited) && InArena(arena, next.parent)
    ensures Represents(s, arena + [next], path, inherited)
  {
    ArenaGrows(arena, next, inherited.cfg);
  }

  // ---- combining statuses ----

  function Both(a: CfgStatus, b: CfgStatus): CfgStatus {
    Combine([a, b], false)
  }

  lemma BothMeets(a: CfgStatus, b: CfgStatus)
    ensures Both(a, b) == Both(b, a) && Both(Active, a) == a
    ensures Both(a, b) == Active <==> a == Active && b == Active
    ensures Both(a, b) == Inactive <==> a == Inactive || b == Inactive
  {
    assert a in [a, b] && b in [a, b];
  }

  lemma StatusOfAll(s: Settings, metas: seq<Meta>)
    ensures StatusOf(s, metas) == Active <==> forall i :: 0 <= i < |metas| ==> MetaStatus(s, metas[i]) == Active
    ensures StatusOf(s, metas) == Inactive <==> exists i :: 0 <= i < |metas| && MetaStatus(s, metas[i]) == Inactive
  {
    var values := seq(|metas|, i requires 0 <= i < |metas| => MetaStatus(s, metas[i]));
    CombineAll(values);
    assert forall i :: 0 <= i < |metas| ==> values[i] == MetaStatus(s, metas[i]);
  }

  lemma StatusJoins(s: Settings, a: seq<Meta>, b: seq<Meta>)
    ensures StatusOf(s, a + b) == Both(StatusOf(s, a), StatusOf(s, b))
  {
    StatusOfAll(s, a);
    StatusOfAll(s, b);
    StatusOfAll(s, a + b);
    BothMeets(StatusOf(s, a), StatusOf(s, b));
    assert forall i :: 0 <= i < |a| ==> (a + b)[i] == a[i];
    assert forall i :: 0 <= i < |b| ==> (a + b)[|a| + i] == b[i];
  }

  lemma UnavailableJoins(s: Settings, a: seq<Meta>, b: seq<Meta>)
    ensures AnyUnavailable(s, a + b) <==> AnyUnavailable(s, a) || AnyUnavailable(s, b)
  {
    assert forall i :: 0 <= i < |a| ==> (a + b)[i] == a[i];
    assert forall i :: 0 <= i < |b| ==> (a + b)[|a| + i] == b[i];
  }

  lemma StatusOfOne(s: Settings, m: Meta)
    ensures StatusOf(s, [m]) == MetaStatus(s, m) && (AnyUnavailable(s, [m]) <==> AttributeUnavailable(s, m))
  {
    StatusOfAll(s, [m]);
    assert [m][0] == m;
  }

  /** A definite inherited status holds in every build the settings describe. */
  lemma NodeStatusIsSound(s: Settings, b: Build, metas: seq<Meta>)
    requires Agrees(b, s)
    ensures Faithful(StatusOf(s, metas), forall i :: 0 <= i < |metas| ==> Keeps(b, metas[i]))
  {
    StatusOfAll(s, metas);
    forall i | 0 <= i < |metas|
      ensures Faithful(MetaStatus(s, metas[i]), Keeps(b, metas[i]))
    {
      MetaStatusIsSound(s, b, metas[i]);
    }
  }

  // ---- what a path inherits, in terms of its attributes ----

  /** The attribute stands directly on a node of the path. */
  ghost predicate OnPath(path: seq<Node>, m: Meta) {
    exists i, child :: 0 <= i < |path| && HasMeta(path[i].children, child, m)
  }

  ghost predicate HasMeta(children: seq<Node>, child: Node, m: Meta) {
    child in children && child.attr.Some? && child.attr.value.meta == Some(m)
  }

  lemma {:induction false} MetasAre(children: seq<Node>, m: Meta)
    ensures m in Metas(children) <==> exists child :: HasMeta(children, child, m)
    decreases |children|
  {
    if children != [] {
      var init, last := children[..|children| - 1], children[|children| - 1];
      MetasAre(init, m);
      assert forall child :: child in children <==> child in init || child == last;
      if child :| HasMeta(init, child, m) { assert HasMeta(children, child, m); }
      if HasMeta(children, last, m) { assert last.attr.value.meta == Some(m); }
      if child :| HasMeta(children, child, m) { assert child != last ==> HasMeta(init, child, m); }
    }
  }

  lemma {:induction false} PathMetasAre(path: seq<Node>, m: Meta)
    ensures m in PathMetas(path) <==> OnPath(path, m)
    decreases |path|
  {
    if path != [] {
      var init, last := path[..|path| - 1], path[|path| - 1];
      PathMetasAre(init, m);
      MetasAre(last.children, m);
      if OnPath(path, m) {
        var i, child :| 0 <= i < |path| && HasMeta(path[i].children, child, m);
        if i < |init| { assert HasMeta(init[i].children, child, m); }
      }
      if OnPath(init, m) {
        var i, child :| 0 <= i < |init| && HasMeta(init[i].children, child, m);
        assert HasMeta(path[i].children, child, m);
      }
    }
  }

  /** Active when no attribute on the path may drop the node, Inactive when one certainly does. */
  ghost predicate Inherits(s: Settings, path: seq<Node>, status: CfgStatus) {
    && (status == Active <==> forall m :: OnPath(path, m) ==> !MayKeep(s, m, false))
    && (status == Inactive <==> exists m :: OnPath(path, m) && !MayKeep(s, m, true))
  }

  lemma StatusIsExact(s: Settings, path: seq<Node>)
    ensures Inherits(s, path, StatusOf(s, PathMetas(path)))
  {
    var metas := PathMetas(path);
    StatusOfAll(s, metas);
    forall m
      ensures OnPath(path, m) <==> exists i :: 0 <= i < |metas| && metas[i] == m
      ensures Exactly(MetaStatus(s, m), MayKeep(s, m, true), MayKeep(s, m, false))
    {
      PathMetasAre(path, m);
      MetaStatusIsExact(s, m);
    }
  }

  lemma MacroIsExact(s: Settings, path: seq<Node>)
    ensures AnyUnavailable(s, PathMetas(path)) <==> exists m :: OnPath(path, m) && MayRewrite(s, m)
  {
    var metas := PathMetas(path);
    forall m
      ensures OnPath(path, m) <==> exists i :: 0 <= i < |metas| && metas[i] == m
      ensures AttributeUnavailable(s, m) <==> MayRewrite(s, m)
    {
      PathMetasAre(path, m);
      UnavailableIsExact(s, m);
    }
  }

  /** Position k of node i on the path holds a cfg or cfg_attr attribute. */
  ghost predicate CfgAt(path: seq<Node>, place: (nat, nat)) {
    && place.0 < |path| && place.1 < |path[place.0].children|
    && var child := path[place.0].children[place.1];
       child.attr.Some? && child.attr.value.name in {Some("cfg"), Some("cfg_attr")}
  }

  /** Inner nodes first, and in order within a node. */
  ghost predicate Before(a: (nat, nat), b: (nat, nat)) {
    a.0 > b.0 || (a.0 == b.0 && a.1 < b.1)
  }

  /** The texts are those of the cfg attributes at these places: all of them, each once, in order. */
  ghost predicate TextsAt(path: seq<Node>, texts: seq<string>, places: seq<(nat, nat)>) {
    && |texts| == |places|
    && (forall j :: 0 <= j < |places| ==> TextAt(path, texts[j], places[j]))
    && (forall j, k :: 0 <= j < k < |places| ==> Before(places[j], places[k]))
    && forall place: (nat, nat) :: CfgAt(path, place) ==> place in places
  }

  ghost predicate TextAt(path: seq<Node>, text: string, place: (nat, nat)) {
    CfgAt(path, place) && text == path[place.0].children[place.1].attr.value.text
  }

  ghost function PlacesIn(children: seq<Node>, i: nat): seq<(nat, nat)> {
    if children == [] then []
    else
      PlacesIn(children[..|children| - 1], i) + if IsCfg(children[|children| - 1]) then [(i, |children| - 1)] else []
  }

  ghost function PlacesOn(path: seq<Node>): seq<(nat, nat)> {
    if path == [] then [] else PlacesIn(path[|path| - 1].children, |path| - 1) + PlacesOn(path[..|path| - 1])
  }

  ghost predicate NamedCfg(child: Node) {
    child.attr.Some? && child.attr.value.name in {Some("cfg"), Some("cfg_attr")}
  }

  /** Within one node. */
  ghost predicate TextsIn(children: seq<Node>, i: nat, texts: seq<string>, places: seq<(nat, nat)>) {
    && |texts| == |places|
    && (forall j :: 0 <= j < |places| ==> TextIn(children, i, texts[j], places[j]))
    && (forall j, k :: 0 <= j < k < |places| ==> places[j].1 < places[k].1)
    && forall k: nat :: k < |children| && NamedCfg(children[k]) ==> (i, k) in places
  }

  ghost predicate TextIn(children: seq<Node>, i: nat, text: string, place: (nat, nat)) {
    place.0 == i && place.1 < |children| && NamedCfg(children[place.1]) && text == children[place.1].attr.value.text
  }

  lemma TextsInNext(init: seq<Node>, last: Node, i: nat, texts: seq<string>, places: seq<(nat, nat)>)
    requires TextsIn(init, i, texts, places)
    ensures NamedCfg(last) ==> TextsIn(init + [last], i, texts + [last.attr.value.text], places + [(i, |init|)])
    ensures !NamedCfg(last) ==> TextsIn(init + [last], i, texts, places)
  {
    forall j | 0 <= j < |places|
      ensures TextIn(init + [last], i, texts[j], places[j]) && places[j].1 < |init|
    {
      assert TextIn(init, i, texts[j], places[j]);
    }
    forall k: nat | k < |init| && NamedCfg((init + [last])[k])
      ensures (i, k) in places
    {
      assert NamedCfg(init[k]);
    }
  }

  lemma {:induction false} CfgTextsAre(children: seq<Node>, i: nat)
    ensures TextsIn(children, i, CfgTexts(children), PlacesIn(children, i))
    decreases |children|
  {
    if children != [] {
      var init, last := children[..|children| - 1], children[|children| - 1];
      CfgTextsAre(init, i);
      TextsInNext(init, last, i, CfgTexts(init), PlacesIn(init, i));
      assert init + [last] == children;
    }
  }

  lemma PlacesOfInit(init: seq<Node>, last: Node, place: (nat, nat))
    requires place.0 < |init|
    ensures CfgAt(init + [last], place) <==> CfgAt(init, place)
    ensures CfgAt(init, place) ==> (init + [last])[place.0].children[place.1] == init[place.0].children[place.1]
  {
  }

  lemma OuterTexts(init: seq<Node>, last: Node, texts: seq<string>, places: seq<(nat, nat)>)
    requires TextsAt(init, texts, places)
    ensures forall j :: 0 <= j < |places| ==> TextAt(init + [last], texts[j], places[j]) && places[j].0 < |init|
  {
    forall j | 0 <= j < |places|
      ensures TextAt(init + [last], texts[j], places[j]) && places[j].0 < |init|
    {
      assert TextAt(init, texts[j], places[j]);
      PlacesOfInit(init, last, places[j]);
    }
  }

  lemma InnerTexts(init: seq<Node>, last: Node, texts: seq<string>, places: seq<(nat, nat)>)
    requires TextsIn(last.children, |init|, texts, places)
    ensures forall j :: 0 <= j < |places| ==> TextAt(init + [last], texts[j], places[j]) && places[j].0 == |init|
  {
    forall j | 0 <= j < |places|
      ensures TextAt(init + [last], texts[j], places[j]) && places[j].0 == |init|
    {
      assert TextIn(last.children, |init|, texts[j], places[j]);
    }
  }

  lemma AllPlaces(init: seq<Node>, last: Node, texts: seq<string>, places: seq<(nat, nat)>, inner: seq<string>, nearer: seq<(nat, nat)>)
    requires TextsAt(init, texts, places) && TextsIn(last.children, |init|, inner, nearer)
    ensures forall place: (nat, nat) :: CfgAt(init + [last], place) ==> place in nearer + places
  {
    forall place: (nat, nat) | CfgAt(init + [last], place)
      ensures place in nearer + places
    {
      if place.0 == |init| {
        assert NamedCfg(last.children[place.1]) && place == (|init|, place.1);
      } else {
        PlacesOfInit(init, last, place);
      }
    }
  }

  lemma PlacesJoin(nearer: seq<(nat, nat)>, places: seq<(nat, nat)>, n: nat)
    requires forall j :: 0 <= j < |nearer| ==> nearer[j].0 == n
    requires forall j :: 0 <= j < |places| ==> places[j].0 < n
    requires forall j, k :: 0 <= j < k < |nearer| ==> nearer[j].1 < nearer[k].1
    requires forall j, k :: 0 <= j < k < |places| ==> Before(places[j], places[k])
    ensures forall j, k :: 0 <= j < k < |nearer + places| ==> Before((nearer + places)[j], (nearer + places)[k])
  {
    var all := nearer + places;
    forall j, k | 0 <= j < k < |all|
      ensures Before(all[j], all[k])
    {
      if j >= |nearer| { assert Before(places[j - |nearer|], places[k - |nearer|]); }
    }
  }

  /** The places of the last node of a path, before those of the others. */
  lemma TextsAtNext(init: seq<Node>, last: Node, texts: seq<string>, places: seq<(nat, nat)>, inner: seq<string>, nearer: seq<(nat, nat)>)
    requires TextsAt(init, texts, places) && TextsIn(last.children, |init|, inner, nearer)
    ensures TextsAt(init + [last], inner + texts, nearer + places)
  {
    OuterTexts(init, last, texts, places);
    InnerTexts(init, last, inner, nearer);
    AllPlaces(init, last, texts, places, inner, nearer);
    PlacesJoin(nearer, places, |init|);
    forall j | 0 <= j < |nearer + places|
      ensures TextAt(init + [last], (inner + texts)[j], (nearer + places)[j])
    {
      if j < |nearer| {
        assert TextAt(init + [last], inner[j], nearer[j]);
      } else {
        assert TextAt(init + [last], texts[j - |nearer|], places[j - |nearer|]);
      }
    }
  }

  lemma {:induction false} PathCfgIs(path: seq<Node>)
    ensures TextsAt(path, PathCfg(path), PlacesOn(path))
    decreases |path|
  {
    if path != [] {
      var init, last := path[..|path| - 1], path[|path| - 1];
      PathCfgIs(init);
      CfgTextsAre(last.children, |init|);
      TextsAtNext(init, last, PathCfg(init), PlacesOn(init), CfgTexts(last.children), PlacesIn(last.children, |init|));
      assert init + [last] == path;
    }
  }

  lemma CfgIsListed(path: seq<Node>, texts: seq<string>)
    requires texts == PathCfg(path)
    ensures exists places :: TextsAt(path, texts, places)
  {
    PathCfgIs(path);
  }

  // ---- one node ----

  /** The parent's settings after the attributes among some children. */
  ghost predicate After(s: Settings, parent: Inherited, children: seq<Node>, inherited: Inherited, attributes: seq<string>) {
    && inherited.status == Both(StatusOf(s, Metas(children)), parent.status)
    && (inherited.macroUnavailable <==> parent.macroUnavailable || AnyUnavailable(s, Metas(children)))
    && inherited.cfg == parent.cfg && attributes == CfgTexts(children)
  }

  lemma AfterNext(s: Settings, parent: Inherited, children: seq<Node>, child: Node, inherited: Inherited, attributes: seq<string>)
    requires After(s, parent, children, inherited, attributes)
    ensures After(s, parent, children + [child], Seen(s, inherited, child), if IsCfg(child) then attributes + [child.attr.value.text] else attributes)
  {
    assert (children + [child])[..|children|] == children;
    assert Metas(children) + [] == Metas(children) && CfgTexts(children) + [] == CfgTexts(children);
    if child.attr.Some? && child.attr.value.meta.Some? {
      var m := child.attr.value.meta.value;
      StatusJoins(s, Metas(children), [m]);
      UnavailableJoins(s, Metas(children), [m]);
      StatusOfOne(s, m);
      BothAssociates(StatusOf(s, Metas(children)), parent.status, MetaStatus(s, m));
    }
  }

  lemma BothAssociates(a: CfgStatus, b: CfgStatus, c: CfgStatus)
    ensures Both(Both(a, b), c) == Both(Both(a, c), b)
  {
    BothMeets(a, b);
    BothMeets(a, c);
    BothMeets(Both(a, b), c);
    BothMeets(Both(a, c), b);
  }

  /** What one child does to the settings: only an attribute with a readable meta counts. */
  function Seen(s: Settings, inherited: Inherited, child: Node): Inherited {
    if child.attr.Some? && child.attr.value.meta.Some? then
      var m := child.attr.value.meta.value;
      inherited.(status := Both(inherited.status, MetaStatus(s, m)),
                 macroUnavailable := inherited.macroUnavailable || AttributeUnavailable(s, m))
    else inherited
  }

  /** Settings of a node from its parent's, adding an arena entry when it has cfg attributes. */
  method Inherit(s: Settings, arena: seq<CfgEntry>, parent: Inherited, node: Node, ghost path: seq<Node>)
    returns (inherited: Inherited, arena': seq<CfgEntry>)
    requires Represents(s, arena, path, parent)
    ensures arena' == arena || exists next :: arena' == arena + [next] && InArena(arena, next.parent)
    ensures Represents(s, arena', path + [node], inherited)
  {
    var attributes: seq<string> := [];
    inherited := parent;
    BothMeets(Active, parent.status);
    for i := 0 to |node.children|
      invariant After(s, parent, node.children[..i], inherited, attributes)
    {
      var child := node.children[i];
      assert node.children[..i + 1] == node.children[..i] + [child];
      AfterNext(s, parent, node.children[..i], child, inherited, attributes);
      inherited := Seen(s, inherited, child);
      if IsCfg(child) { attributes := attributes + [child.attr.value.text]; }
    }
    assert node.children[..|node.children|] == node.children;
    arena' := arena;
    if attributes != [] {
      ArenaGrows(arena, CfgEntry(attributes, inherited.cfg), inherited.cfg);
      arena' := arena + [CfgEntry(attributes, inherited.cfg)];
      inherited := inherited.(cfg := Some(|arena|));
    }
    InheritedRepresents(s, arena, arena', parent, inherited, node, path, attributes);
  }

  lemma InheritedRepresents(s: Settings, arena: seq<CfgEntry>, arena': seq<CfgEntry>, parent: Inherited, inherited: Inherited,
                            node: Node, path: seq<Node>, attributes: seq<string>)
    requires Represents(s, arena, path, parent)
    requires After(s, parent, node.children, inherited.(cfg := parent.cfg), attributes)
    requires if attributes == [] then arena' == arena && inherited.cfg == parent.cfg
             else arena' == arena + [CfgEntry(attributes, parent.cfg)] && inherited.cfg == Some(|arena|)
    ensures Represents(s, arena', path + [node], inherited)
  {
    assert (path + [node])[..|path|] == path;
    StatusJoins(s, Metas(node.children), PathMetas(path));
    UnavailableJoins(s, Metas(node.children), PathMetas(path));
    if attributes == [] {
      assert [] + PathCfg(path) == PathCfg(path);
    } else {
      ArenaGrows(arena, CfgEntry(attributes, parent.cfg), parent.cfg);
    }
  }

  // ---- the pass ----

  function Lookup(cache: Cache, id: nat): Inherited {
    if id in cache.nodes then cache.nodes[id] else DEFAULT
  }

  /** No two entered nodes share an identity. */
  ghost predicate DistinctNodes(root: Node) {
    forall i, j :: 0 <= i < j < |Events(root)| && Events(root)[i].Enter? && Events(root)[j].Enter? ==>
      Events(root)[i].node.id != Events(root)[j].node.id
  }

  /** The stack holds the settings of every prefix of the open path. */
  ghost predicate StackRight(s: Settings, arena: seq<CfgEntry>, open: seq<Node>, stack: seq<Inherited>) {
    && |stack| == |open| + 1
    && forall k :: 0 <= k < |stack| ==> Represents(s, arena, open[..k], stack[k])
  }

  /** Nodes entered before position i have their settings, and no other node has an entry. */
  ghost predicate CacheRight(s: Settings, events: seq<Event>, i: nat, cache: Cache) {
    && i <= |events|
    && (forall j :: 0 <= j < i && events[j].Enter? ==>
          Represents(s, cache.cfg, Open(events[..j]) + [events[j].node], Lookup(cache, events[j].node.id)))
    && forall id :: id in cache.nodes ==> EnteredBefore(events, i, id)
  }

  ghost predicate EnteredBefore(events: seq<Event>, i: nat, id: nat) {
    i <= |events| && exists j :: 0 <= j < i && events[j].Enter? && events[j].node.id == id
  }

  lemma StackGrows(s: Settings, arena: seq<CfgEntry>, next: CfgEntry, open: seq<Node>, stack: seq<Inherited>)
    requires StackRight(s, arena, open, stack) && InArena(arena, next.parent)
    ensures StackRight(s, arena + [next], open, stack)
  {
    forall k | 0 <= k < |stack|
      ensures Represents(s, arena + [next], open[..k], stack[k])
    {
      GrowsRepresents(s, arena, next, open[..k], stack[k]);
    }
  }

  lemma CacheGrows(s: Settings, events: seq<Event>, i: nat, cache: Cache, next: CfgEntry)
    requires CacheRight(s, events, i, cache) && InArena(cache.cfg, next.parent)
    ensures CacheRight(s, events, i, cache.(cfg := cache.cfg + [next]))
  {
    forall j | 0 <= j < i && events[j].Enter?
      ensures Represents(s, cache.cfg + [next], Open(events[..j]) + [events[j].node], Lookup(cache, events[j].node.id))
    {
      GrowsRepresents(s, cache.cfg, next, Open(events[..j]) + [events[j].node], Lookup(cache, events[j].node.id));
    }
  }

  lemma Pushed(s: Settings, arena: seq<CfgEntry>, open: seq<Node>, stack: seq<Inherited>, node: Node, inherited: Inherited)
    requires StackRight(s, arena, open, stack) && Represents(s, arena, open + [node], inherited)
    ensures StackRight(s, arena, open + [node], stack + [inherited])
  {
    forall k | 0 <= k < |stack| + 1
      ensures Represents(s, arena, (open + [node])[..k], (stack + [inherited])[k])
    {
      if k < |stack| {
        assert (open + [node])[..k] == open[..k];
      } else {
        assert (open + [node])[..k] == open + [node];
      }
    }
  }

  lemma PoppedRight(s: Settings, arena: seq<CfgEntry>, open: seq<Node>, stack: seq<Inherited>)
    requires StackRight(s, arena, open, stack) && open != []
    ensures StackRight(s, arena, open[..|open| - 1], stack[..|stack| - 1])
  {
    var shorter, below := open[..|open| - 1], stack[..|stack| - 1];
    forall k | 0 <= k < |below|
      ensures Represents(s, arena, shorter[..k], below[k])
    {
      assert shorter[..k] == open[..k] && below[k] == stack[k];
    }
  }

  /** Recording the node at position i. Default settings leave no entry. */
  ghost function Recorded(cache: Cache, id: nat, inherited: Inherited): Cache {
    if inherited != DEFAULT then cache.(nodes := cache.nodes[id := inherited]) else cache
  }

  lemma RecordedRight(s: Settings, events: seq<Event>, i: nat, cache: Cache, inherited: Inherited)
    requires CacheRight(s, events, i, cache) && i < |events| && events[i].Enter?
    requires forall j :: 0 <= j < i && events[j].Enter? ==> events[j].node.id != events[i].node.id
    requires Represents(s, cache.cfg, Open(events[..i]) + [events[i].node], inherited)
    ensures CacheRight(s, events, i + 1, Recorded(cache, events[i].node.id, inherited))
  {
    var id := events[i].node.id;
    var cache' := Recorded(cache, id, inherited);
    assert id in cache.nodes ==> EnteredBefore(events, i, id);
    forall j | 0 <= j < i + 1 && events[j].Enter?
      ensures Represents(s, cache'.cfg, Open(events[..j]) + [events[j].node], Lookup(cache', events[j].node.id))
    {
      if j < i { assert Lookup(cache', events[j].node.id) == Lookup(cache, events[j].node.id); }
    }
    forall x | x in cache'.nodes
      ensures EnteredBefore(events, i + 1, x)
    {
      if x in cache.nodes {
        assert EnteredBefore(events, i, x);
        var j :| 0 <= j < i && events[j].Enter? && events[j].node.id == x;
      } else {
        assert events[i].node.id == x;
      }
    }
  }

  lemma LeftRight(s: Settings, events: seq<Event>, i: nat, cache: Cache)
    requires CacheRight(s, events, i, cache) && i < |events| && events[i].Leave?
    ensures CacheRight(s, events, i + 1, cache)
  {
    forall x | x in cache.nodes
      ensures EnteredBefore(events, i + 1, x)
    {
      assert EnteredBefore(events, i, x);
      var j :| 0 <= j < i && events[j].Enter? && events[j].node.id == x;
    }
  }

  lemma OpenNext(events: seq<Event>, i: nat)
    requires i < |events|
    ensures Open(events[..i + 1]) ==
      match events[i]
      case Enter(node) => Open(events[..i]) + [node]
      case Leave(_) => if Open(events[..i]) == [] then [] else Open(events[..i])[..|Open(events[..i])| - 1]
  {
    assert events[..i + 1][..i] == events[..i];
  }

  /** The cache gives every node the settings that rescanning all its ancestors would give, and its
      arena links strictly decrease. */
  ghost predicate IsCacheOf(s: Settings, root: Node, cache: Cache) {
    Descending(cache.cfg) &&
    forall path: seq<Node> :: IsPath(root, path) ==> Represents(s, cache.cfg, path, Lookup(cache, path[|path| - 1].id))
  }

  lemma WalkedIsCache(s: Settings, root: Node, cache: Cache)
    requires CacheRight(s, Events(root), |Events(root)|, cache) && Descending(cache.cfg)
    ensures IsCacheOf(s, root, cache)
  {
    var events := Events(root);
    forall path: seq<Node> | IsPath(root, path)
      ensures Represents(s, cache.cfg, path, Lookup(cache, path[|path| - 1].id))
    {
      var j := PathIsOpen(root, path);
      assert Open(events[..j]) + [events[j].node] == path;
    }
  }

  lemma PathIsOpen(root: Node, path: seq<Node>) returns (j: nat)
    requires IsPath(root, path)
    ensures j < |Events(root)| && Events(root)[j] == Enter(path[|path| - 1])
    ensures Open(Events(root)[..j]) + [path[|path| - 1]] == path
  {
    j := PathIsEntered([], root, path);
    assert [] + Events(root)[..j] == Events(root)[..j];
  }

  /** One pass over the tree. */
  method BuildCache(root: Node, s: Settings) returns (cache: Cache)
    requires DistinctNodes(root)
    ensures IsCacheOf(s, root, cache)
  {
    var events := Events(root);
    cache := Cache(map[], []);
    var stack := [DEFAULT];
    StartRight(s, events);
    for i := 0 to |events|
      invariant StackRight(s, cache.cfg, Open(events[..i]), stack) && CacheRight(s, events, i, cache)
    {
      OpenNext(events, i);
      match events[i]
      case Enter(node) =>
        cache, stack := EnterNode(s, events, i, cache, stack);
      case Leave(node) =>
        LeftIsOpen([], root, i);
        assert [] + events[..i] == events[..i];
        PoppedRight(s, cache.cfg, Open(events[..i]), stack);
        LeftRight(s, events, i, cache);
        stack := stack[..|stack| - 1];
    }
    assert events[..|events|] == events;
    assert Represents(s, cache.cfg, Open(events)[..0], stack[0]);
    WalkedIsCache(s, root, cache);
  }

  lemma StartRight(s: Settings, events: seq<Event>)
    ensures StackRight(s, [], Open(events[..0]), [DEFAULT]) && CacheRight(s, events, 0, Cache(map[], []))
  {
    var none: seq<Node> := [];
    assert events[..0] == [] && none[..0] == [];
    StatusOfAll(s, []);
    assert Represents(s, [], [], DEFAULT);
  }

  method EnterNode(s: Settings, events: seq<Event>, i: nat, cache: Cache, stack: seq<Inherited>)
    returns (cache': Cache, stack': seq<Inherited>)
    requires i < |events| && events[i].Enter?
    requires forall j :: 0 <= j < i && events[j].Enter? ==> events[j].node.id != events[i].node.id
    requires StackRight(s, cache.cfg, Open(events[..i]), stack) && CacheRight(s, events, i, cache)
    ensures StackRight(s, cache'.cfg, Open(events[..i]) + [events[i].node], stack') && CacheRight(s, events, i + 1, cache')
  {
    var node := events[i].node;
    ghost var open := Open(events[..i]);
    assert open[..|open|] == open;
    var inherited, arena := Inherit(s, cache.cfg, stack[|stack| - 1], node, open);
    if arena != cache.cfg {
      ghost var next :| arena == cache.cfg + [next] && InArena(cache.cfg, next.parent);
      StackGrows(s, cache.cfg, next, open, stack);
      CacheGrows(s, events, i, cache, next);
    }
    var grown := cache.(cfg := arena);
    RecordedRight(s, events, i, grown, inherited);
    Pushed(s, arena, open, stack, node, inherited);
    cache' := grown;
    if inherited.status != Active || inherited.macroUnavailable || inherited.cfg.Some? {
      cache' := grown.(nodes := grown.nodes[node.id := inherited]);
    }
    stack' := stack + [inherited];
  }

  // ---- lookups ----

  method NodeStatus(cache: Cache, s: Settings, root: Node, ghost path: seq<Node>, node: Node) returns (status: CfgStatus)
    requires IsCacheOf(s, root, cache) && IsPath(root, path) && node == path[|path| - 1]
    ensures status == StatusOf(s, PathMetas(path)) && Inherits(s, path, status)
  {
    status := Lookup(cache, node.id).status;
    StatusIsExact(s, path);
  }

  method HasAttributeMacro(cache: Cache, s: Settings, root: Node, ghost path: seq<Node>, node: Node) returns (found: bool)
    requires IsCacheOf(s, root, cache) && IsPath(root, path) && node == path[|path| - 1]
    ensures found <==> AnyUnavailable(s, PathMetas(path))
    ensures found <==> exists m :: OnPath(path, m) && MayRewrite(s, m)
  {
    found := Lookup(cache, node.id).macroUnavailable;
    MacroIsExact(s, path);
  }

  /** Follows the arena links, innermost attributes first. */
  method Cfg(cache: Cache, s: Settings, root: Node, ghost path: seq<Node>, node: Node) returns (texts: seq<string>)
    requires IsCacheOf(s, root, cache) && IsPath(root, path) && node == path[|path| - 1]
    ensures texts == PathCfg(path) && exists places :: TextsAt(path, texts, places)
  {
    texts := [];
    var current := Lookup(cache, node.id).cfg;
    ghost var start := current;
    while current.Some?
      invariant InArena(cache.cfg, current) && texts + Listed(cache.cfg, current) == Listed(cache.cfg, start)
      decreases if current.Some? then current.value + 1 else 0
    {
      var entry := cache.cfg[current.value];
      Associate(texts, entry.attributes, Listed(cache.cfg, entry.parent));
      texts := texts + entry.attributes;
      current := entry.parent;
    }
    assert texts + [] == texts;
    CfgIsListed(path, texts);
  }
}
