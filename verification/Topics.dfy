/**
  The broker's topic index (vaux-broker/src/topic.rs): an arena trie that answers which
  subscriptions match a topic. It is proved to agree with the plain table of subscriptions
  filtered by the wildcard rule of section 4.7.1 of MQTT Version 5.0.
 */
module Topics {
  import opened Mqtt

  type Levels = seq<string>

  //
  // Topic levels: `split('/')`
  //

  function Split(s: string): (levels: Levels)
    ensures |levels| >= 1
  {
    if s == "" then [""]
    else
      var rest := Split(s[1..]);
      if s[0] == '/' then [""] + rest else [[s[0]] + rest[0]] + rest[1..]
  }

  function Join(levels: Levels): string
    requires |levels| >= 1
  {
    if |levels| == 1 then levels[0] else levels[0] + "/" + Join(levels[1..])
  }

  /** Splitting loses nothing, so two filters with the same levels are the same filter. */
  lemma {:induction false} JoinSplit(s: string)
    ensures Join(Split(s)) == s
  {
    if s != "" {
      JoinSplit(s[1..]);
      var rest := Split(s[1..]);
      if s[0] == '/' {
        assert Split(s)[1..] == rest;
      } else if |rest| > 1 {
        assert Split(s)[1..] == rest[1..];
      }
    }
  }

  /** No level contains a slash. */
  ghost predicate SlashFree(levels: Levels) {
    forall i :: 0 <= i < |levels| ==> '/' !in levels[i]
  }

  lemma {:induction false} SplitSlashFree(s: string)
    ensures SlashFree(Split(s))
  {
    if s != "" {
      SplitSlashFree(s[1..]);
      var rest := Split(s[1..]);
      forall i | 0 <= i < |Split(s)| ensures '/' !in Split(s)[i] {
        if s[0] == '/' {
          assert i > 0 ==> Split(s)[i] == rest[i - 1];
        } else {
          assert i > 0 ==> Split(s)[i] == rest[i];
          assert i == 0 ==> Split(s)[i] == [s[0]] + rest[0];
        }
      }
    }
  }

  /** The levels of a string are the one way to write it as slash-free parts with a slash between them. */
  lemma {:induction false} SplitUnique(levels: Levels)
    requires |levels| >= 1 && SlashFree(levels)
    ensures Split(Join(levels)) == levels
    decreases |levels|, |levels[0]|
  {
    var first := levels[0];
    if first != "" {
      var shorter := [first[1..]] + levels[1..];
      assert shorter[1..] == levels[1..];
      assert first == [first[0]] + first[1..] && first[0] in first;
      SplitUnique(shorter);
      assert Join(levels)[1..] == Join(shorter) && Join(levels)[0] == first[0];
      assert [[first[0]] + shorter[0]] + shorter[1..] == levels;
    } else if |levels| > 1 {
      SplitUnique(levels[1..]);
      assert Join(levels) == "/" + Join(levels[1..]);
      assert Join(levels)[1..] == Join(levels[1..]);
      assert levels == [""] + levels[1..];
    }
  }

  /** Both together: `levels` are the levels of `s` exactly if they are slash-free and joined by slashes give `s`. */
  lemma SplitIff(s: string, levels: Levels)
    requires |levels| >= 1
    ensures Split(s) == levels <==> SlashFree(levels) && Join(levels) == s
  {
    SplitSlashFree(s);
    JoinSplit(s);
    if SlashFree(levels) {
      SplitUnique(levels);
    }
  }

  lemma SplitInjective(s: string, t: string)
    ensures Split(s) == Split(t) <==> s == t
  {
    JoinSplit(s);
    JoinSplit(t);
  }

  //
  // The wildcard rule
  //

  predicate Matches(filter: Levels, topic: Levels)
  {
    if filter == [] then topic == []
    else if filter == ["#"] then true
    else topic != [] && (filter[0] == "+" || filter[0] == topic[0]) && Matches(filter[1..], topic[1..])
  }

  /** A level of a filter against a level of a topic. */
  predicate LevelMatches(filter: string, level: string) {
    filter == "+" || filter == level
  }

  /** The rule level by level: a final `#` stands for any number of levels, none included. */
  lemma {:induction false} MatchesIff(filter: Levels, topic: Levels)
    ensures Matches(filter, topic) <==>
              if filter != [] && filter[|filter| - 1] == "#" then
                |filter| - 1 <= |topic| && forall i :: 0 <= i < |filter| - 1 ==> LevelMatches(filter[i], topic[i])
              else
                |filter| == |topic| && forall i :: 0 <= i < |filter| ==> LevelMatches(filter[i], topic[i])
    decreases filter
  {
    if filter != [] && filter != ["#"] && topic != [] {
      MatchesIff(filter[1..], topic[1..]);
      if Matches(filter, topic) {
        forall i | 0 < i < |filter| && i < |topic| && (i < |filter| - 1 || filter[|filter| - 1] != "#")
          ensures LevelMatches(filter[i], topic[i])
        {
          assert LevelMatches(filter[1..][i - 1], topic[1..][i - 1]);
        }
      }
    }
  }

  predicate NoWildcards(topic: Levels) {
    forall i :: 0 <= i < |topic| ==> topic[i] != "+" && topic[i] != "#"
  }

  //
  // The arena and the table it stands for
  //

  datatype Subscriber = Subscriber(sessionId: string, qos: QoSLevel, noLocal: bool)

  datatype TopicNode = TopicNode(
    parent: nat,
    segment: string,
    children: map<string, nat>,
    subscribers: seq<Subscriber>,
    wildcardSubscribers: seq<Subscriber>)

  datatype Key = Key(filter: Levels, sessionId: string)

  /** The plain table: at most one subscription for each filter and session. */
  type Subscriptions = map<Key, Subscriber>

  /** Local shape of node `i`: its parent and its children agree with the paths. */
  ghost predicate NodeOk(nodes: seq<TopicNode>, paths: seq<Levels>, i: nat)
    requires i < |nodes| == |paths|
  {
    && (i > 0 ==>
          && nodes[i].parent < i
          && paths[i] == paths[nodes[i].parent] + [nodes[i].segment]
          && nodes[i].segment in nodes[nodes[i].parent].children)
    && (forall s :: s in nodes[i].children ==>
          i < nodes[i].children[s] < |nodes| && paths[nodes[i].children[s]] == paths[i] + [s])
  }

  ghost predicate Distinct(paths: seq<Levels>) {
    forall i, j :: 0 <= i < j < |paths| ==> paths[i] != paths[j]
  }

  /** The arena is a tree, and `paths` is a bijection between its nodes and their level sequences. */
  ghost predicate Shape(nodes: seq<TopicNode>, paths: seq<Levels>) {
    && |nodes| == |paths| >= 1
    && paths[0] == []
    && Distinct(paths)
    && (forall i :: 0 <= i < |nodes| ==> NodeOk(nodes, paths, i))
  }

  predicate IsHash(path: Levels) {
    path != [] && path[|path| - 1] == "#"
  }

  function ListAt(node: TopicNode, path: Levels): seq<Subscriber> {
    if IsHash(path) then node.wildcardSubscribers else node.subscribers
  }

  function OtherList(node: TopicNode, path: Levels): seq<Subscriber> {
    if IsHash(path) then node.subscribers else node.wildcardSubscribers
  }

  /** `out` holds the table entries of `target`, each exactly once; `keys` names them in order. */
  ghost predicate Lists(out: seq<Subscriber>, keys: seq<Key>, subs: Subscriptions, target: set<Key>) {
    && |out| == |keys|
    && (forall i, j :: 0 <= i < j < |keys| ==> keys[i] != keys[j])
    && (forall i :: 0 <= i < |keys| ==> keys[i] in target && keys[i] in subs && out[i] == subs[keys[i]])
    && (forall k :: k in target ==> k in keys)
  }

  ghost predicate Enumerates(out: seq<Subscriber>, subs: Subscriptions, target: set<Key>) {
    exists keys :: Lists(out, keys, subs, target)
  }

  /** The plain answer: filter the table by the wildcard rule. */
  ghost function Matching(subs: Subscriptions, topic: Levels): set<Key> {
    set k | k in subs && Matches(k.filter, topic)
  }

  ghost function KeysOf(path: Levels, list: seq<Subscriber>): seq<Key> {
    seq(|list|, i requires 0 <= i < |list| => Key(path, list[i].sessionId))
  }

  ghost function AtPath(subs: Subscriptions, path: Levels): set<Key> {
    set k | k in subs && k.filter == path
  }

  ghost predicate Holds(node: TopicNode, path: Levels, subs: Subscriptions) {
    && OtherList(node, path) == []
    && Lists(ListAt(node, path), KeysOf(path, ListAt(node, path)), subs, AtPath(subs, path))
  }

  ghost predicate HoldsAt(nodes: seq<TopicNode>, paths: seq<Levels>, subs: Subscriptions, i: nat)
    requires i < |nodes| == |paths|
  {
    Holds(nodes[i], paths[i], subs)
  }

  /** Wildcard lists occur only on `#` nodes, exact lists only elsewhere, and together they are the table. */
  ghost predicate Stores(nodes: seq<TopicNode>, paths: seq<Levels>, subs: Subscriptions) {
    && |nodes| == |paths|
    && (forall i :: 0 <= i < |nodes| ==> HoldsAt(nodes, paths, subs, i))
    && (forall k :: k in subs ==> k.filter in paths)
  }

  ghost function Prefixes(filters: set<Levels>): set<Levels> {
    {[]} + set f, n | f in filters && 0 <= n <= |f| :: f[..n]
  }

  ghost function PathSet(paths: seq<Levels>): set<Levels> {
    set p | p in paths
  }

  //
  // Tree lemmas
  //

  /** A node's path extended by one level belongs to its child under that level, and to no other node. */
  lemma ChildOf(nodes: seq<TopicNode>, paths: seq<Levels>, i: nat, s: string, j: nat)
    requires Shape(nodes, paths) && i < |nodes| && j < |nodes| && paths[j] == paths[i] + [s]
    ensures s in nodes[i].children && nodes[i].children[s] == j
  {
    assert j != 0 && NodeOk(nodes, paths, j) && NodeOk(nodes, paths, i);
    var p := nodes[j].parent;
    assert paths[j][..|paths[j]| - 1] == paths[p] == paths[i];
    assert p == i;
    assert paths[j][|paths[j]| - 1] == nodes[j].segment == s;
  }

  /** The arena is closed under prefixes. */
  lemma {:induction false} PrefixNode(nodes: seq<TopicNode>, paths: seq<Levels>, j: nat, n: nat) returns (i: nat)
    requires Shape(nodes, paths) && j < |nodes| && n <= |paths[j]|
    ensures i < |nodes| && paths[i] == paths[j][..n]
    decreases j
  {
    assert NodeOk(nodes, paths, j);
    if n == |paths[j]| {
      assert paths[j][..n] == paths[j];
      i := j;
    } else {
      i := PrefixNode(nodes, paths, nodes[j].parent, n);
    }
  }

  /** No subscription lies below a missing child. */
  lemma NothingBelow(nodes: seq<TopicNode>, paths: seq<Levels>, subs: Subscriptions, i: nat, s: string)
    requires Shape(nodes, paths) && i < |nodes| && s !in nodes[i].children
    requires forall k :: k in subs ==> k.filter in paths
    ensures forall k :: k in subs ==> !(paths[i] + [s] <= k.filter)
  {
    var p := paths[i] + [s];
    forall k | k in subs ensures !(p <= k.filter) {
      if p <= k.filter {
        var j :| 0 <= j < |paths| && paths[j] == k.filter;
        var c := PrefixNode(nodes, paths, j, |p|);
        assert paths[c] == p;
        ChildOf(nodes, paths, i, s, c);
        assert false;
      }
    }
  }

  /** Distinct nodes have distinct paths, so the arena has one node for each path. */
  lemma {:induction false} DistinctCount(paths: seq<Levels>)
    requires Distinct(paths)
    ensures |PathSet(paths)| == |paths|
  {
    if paths != [] {
      var last := |paths| - 1;
      DistinctCount(paths[..last]);
      assert PathSet(paths) == PathSet(paths[..last]) + {paths[last]};
    }
  }

  //
  // Search
  //

  ghost predicate InRange(nodes: seq<TopicNode>, i: nat)
    requires i < |nodes|
  {
    forall s :: s in nodes[i].children ==> nodes[i].children[s] < |nodes|
  }

  ghost predicate ChildrenInRange(nodes: seq<TopicNode>) {
    forall i :: 0 <= i < |nodes| ==> InRange(nodes, i)
  }

  lemma ShapeInRange(nodes: seq<TopicNode>, paths: seq<Levels>)
    requires Shape(nodes, paths)
    ensures ChildrenInRange(nodes)
  {
    forall i | 0 <= i < |nodes| ensures InRange(nodes, i) {
      assert NodeOk(nodes, paths, i);
    }
  }

  ghost function HashList(nodes: seq<TopicNode>, idx: nat): seq<Subscriber>
    requires idx < |nodes| && InRange(nodes, idx)
  {
    if "#" in nodes[idx].children then nodes[nodes[idx].children["#"]].wildcardSubscribers else []
  }

  /** The results buffer after `collect_matches` of a node and the topic levels that remain. */
  ghost function Collect(nodes: seq<TopicNode>, idx: nat, topic: Levels, results: seq<Subscriber>): seq<Subscriber>
    requires ChildrenInRange(nodes) && idx < |nodes|
    decreases |topic|, 0
  {
    assert InRange(nodes, idx);
    var own := results + nodes[idx].wildcardSubscribers;
    if topic == [] then own + nodes[idx].subscribers + HashList(nodes, idx)
    else
      var exact := Below(nodes, idx, topic[0], topic[1..], own);
      var plus := Below(nodes, idx, "+", topic[1..], exact);
      plus + HashList(nodes, idx)
  }

  ghost function Below(nodes: seq<TopicNode>, idx: nat, level: string, topic: Levels,
                       results: seq<Subscriber>): seq<Subscriber>
    requires ChildrenInRange(nodes) && idx < |nodes|
    decreases |topic|, 1
  {
    assert InRange(nodes, idx);
    if level in nodes[idx].children then Collect(nodes, nodes[idx].children[level], topic, results) else results
  }

  ghost predicate MatchesUnder(f: Levels, p: Levels, topic: Levels) {
    p <= f && Matches(f[|p|..], topic)
  }

  /** The subscriptions below path `p` whose remaining levels match `topic`. */
  ghost function Under(subs: Subscriptions, p: Levels, topic: Levels): set<Key> {
    set k | k in subs && MatchesUnder(k.filter, p, topic)
  }

  lemma ListsConcat(a: seq<Subscriber>, ka: seq<Key>, sa: set<Key>,
                    b: seq<Subscriber>, kb: seq<Key>, sb: set<Key>, subs: Subscriptions)
    requires Lists(a, ka, subs, sa) && Lists(b, kb, subs, sb) && sa !! sb
    ensures Lists(a + b, ka + kb, subs, sa + sb)
  {
    var keys := ka + kb;
    forall i, j | 0 <= i < j < |keys| ensures keys[i] != keys[j] {
      if i < |ka| <= j {
        assert keys[i] in sa && keys[j] in sb;
      }
    }
    forall i | 0 <= i < |keys| ensures keys[i] in sa + sb && keys[i] in subs && (a + b)[i] == subs[keys[i]] {
      assert keys[i] == if i < |ka| then ka[i] else kb[i - |ka|];
    }
    forall k | k in sa + sb ensures k in keys {
      if k in sa { assert k in ka; } else { assert k in kb; }
    }
  }

  /** The `#` child of a node holds the subscriptions whose filter ends there. */
  lemma HashChild(nodes: seq<TopicNode>, paths: seq<Levels>, subs: Subscriptions, i: nat)
    returns (keys: seq<Key>)
    requires Shape(nodes, paths) && Stores(nodes, paths, subs) && i < |nodes|
    ensures InRange(nodes, i) && Lists(HashList(nodes, i), keys, subs, AtPath(subs, paths[i] + ["#"]))
  {
    var p := paths[i] + ["#"];
    assert NodeOk(nodes, paths, i);
    if "#" in nodes[i].children {
      var c := nodes[i].children["#"];
      assert HoldsAt(nodes, paths, subs, c) && IsHash(paths[c]);
      keys := KeysOf(p, HashList(nodes, i));
    } else {
      keys := [];
      NothingBelow(nodes, paths, subs, i, "#");
      assert AtPath(subs, p) == {};
    }
  }

  /** A filter below `p` that matches takes exactly one of the branches of the search. */
  lemma MatchSplits(f: Levels, p: Levels, topic: Levels)
    requires NoWildcards(topic)
    ensures topic == [] ==> (MatchesUnder(f, p, topic) <==> f == p || f == p + ["#"])
    ensures topic != [] ==>
              (MatchesUnder(f, p, topic) <==>
               || MatchesUnder(f, p + [topic[0]], topic[1..])
               || MatchesUnder(f, p + ["+"], topic[1..])
               || f == p + ["#"])
    ensures topic != [] ==> !(p + [topic[0]] <= f && p + ["+"] <= f)
    ensures topic != [] ==> !(p + [topic[0]] <= p + ["#"]) && !(p + ["+"] <= p + ["#"])
  {
    assert (p + ["#"])[|p|] == "#" && (p + ["+"])[|p|] == "+";
    assert topic != [] ==> (p + [topic[0]])[|p|] == topic[0];
    if p <= f {
      var g := f[|p|..];
      assert f == p + g;
      if g != [] {
        assert f[|p| + 1..] == g[1..];
        assert p + [g[0]] <= f;
      }
    }
  }

  /** The branches of the search partition the matching subscriptions. */
  lemma UnderSplits(subs: Subscriptions, p: Levels, topic: Levels)
    requires NoWildcards(topic)
    ensures topic == [] ==> Under(subs, p, topic) == AtPath(subs, p) + AtPath(subs, p + ["#"])
    ensures topic != [] ==>
              Under(subs, p, topic) ==
              Under(subs, p + [topic[0]], topic[1..]) + Under(subs, p + ["+"], topic[1..]) + AtPath(subs, p + ["#"])
    ensures topic != [] ==>
              && Under(subs, p + [topic[0]], topic[1..]) !! Under(subs, p + ["+"], topic[1..])
              && Under(subs, p + [topic[0]], topic[1..]) !! AtPath(subs, p + ["#"])
              && Under(subs, p + ["+"], topic[1..]) !! AtPath(subs, p + ["#"])
  {
    forall k | k in subs
      ensures topic == [] ==> (MatchesUnder(k.filter, p, topic) <==> k.filter == p || k.filter == p + ["#"])
      ensures topic != [] ==>
                (MatchesUnder(k.filter, p, topic) <==>
                 || MatchesUnder(k.filter, p + [topic[0]], topic[1..])
                 || MatchesUnder(k.filter, p + ["+"], topic[1..])
                 || k.filter == p + ["#"])
      ensures topic != [] ==> !(p + [topic[0]] <= k.filter && p + ["+"] <= k.filter)
      ensures topic != [] ==> !(p + [topic[0]] <= p + ["#"]) && !(p + ["+"] <= p + ["#"])
    {
      MatchSplits(k.filter, p, topic);
    }
  }

  /** Below a child: the child's own search, or nothing when the child is missing. */
  lemma {:induction false} BelowSound(nodes: seq<TopicNode>, paths: seq<Levels>, subs: Subscriptions,
                                      i: nat, level: string, topic: Levels,
                                      results: seq<Subscriber>, known: seq<Key>, listed: set<Key>)
    returns (keys: seq<Key>)
    requires Shape(nodes, paths) && Stores(nodes, paths, subs) && i < |nodes|
    requires NoWildcards(topic) && level != "#"
    requires Lists(results, known, subs, listed) && listed !! Under(subs, paths[i] + [level], topic)
    ensures ChildrenInRange(nodes)
    ensures Lists(Below(nodes, i, level, topic, results), keys, subs, listed + Under(subs, paths[i] + [level], topic))
    decreases |topic|, 1
  {
    ShapeInRange(nodes, paths);
    assert NodeOk(nodes, paths, i);
    if level in nodes[i].children {
      var c := nodes[i].children[level];
      assert paths[c] == paths[i] + [level];
      keys := CollectSound(nodes, paths, subs, c, topic, results, known, listed);
    } else {
      keys := known;
      NothingBelow(nodes, paths, subs, i, level);
      assert Under(subs, paths[i] + [level], topic) == {};
      assert listed + {} == listed;
    }
  }

  /** The search adds exactly the matching subscriptions to the results, each once. */
  lemma {:induction false} CollectSound(nodes: seq<TopicNode>, paths: seq<Levels>, subs: Subscriptions,
                                        i: nat, topic: Levels,
                                        results: seq<Subscriber>, known: seq<Key>, listed: set<Key>)
    returns (keys: seq<Key>)
    requires Shape(nodes, paths) && Stores(nodes, paths, subs) && i < |nodes|
    requires NoWildcards(topic) && !IsHash(paths[i])
    requires Lists(results, known, subs, listed) && listed !! Under(subs, paths[i], topic)
    ensures ChildrenInRange(nodes)
    ensures Lists(Collect(nodes, i, topic, results), keys, subs, listed + Under(subs, paths[i], topic))
    decreases |topic|, 0
  {
    ShapeInRange(nodes, paths);
    var kh := HashChild(nodes, paths, subs, i);
    var p, own, hash := paths[i], nodes[i].subscribers, HashList(nodes, i);
    var atHash := AtPath(subs, p + ["#"]);
    UnderSplits(subs, p, topic);
    assert HoldsAt(nodes, paths, subs, i);
    assert results + nodes[i].wildcardSubscribers == results;
    if topic == [] {
      ListsConcat(results, known, listed, own, KeysOf(p, own), AtPath(subs, p), subs);
      ListsConcat(results + own, known + KeysOf(p, own), listed + AtPath(subs, p), hash, kh, atHash, subs);
      keys := known + KeysOf(p, own) + kh;
      assert listed + AtPath(subs, p) + atHash == listed + Under(subs, p, topic);
    } else {
      var rest := topic[1..];
      var ue, up := Under(subs, p + [topic[0]], rest), Under(subs, p + ["+"], rest);
      var exact := Below(nodes, i, topic[0], rest, results);
      var plus := Below(nodes, i, "+", rest, exact);
      var ke := BelowSound(nodes, paths, subs, i, topic[0], rest, results, known, listed);
      var kp := BelowSound(nodes, paths, subs, i, "+", rest, exact, ke, listed + ue);
      ListsConcat(plus, kp, listed + ue + up, hash, kh, atHash, subs);
      keys := kp + kh;
      assert listed + ue + up + atHash == listed + Under(subs, p, topic);
    }
  }

  /** The index refines the table: from the root, the search enumerates the matching subscriptions. */
  lemma SearchExact(nodes: seq<TopicNode>, paths: seq<Levels>, subs: Subscriptions, topic: Levels)
    requires Shape(nodes, paths) && Stores(nodes, paths, subs) && NoWildcards(topic)
    ensures ChildrenInRange(nodes) && Enumerates(Collect(nodes, 0, topic, []), subs, Matching(subs, topic))
  {
    var keys := CollectSound(nodes, paths, subs, 0, topic, [], [], {});
    assert forall k: Key :: k.filter[0..] == k.filter;
    assert {} + Under(subs, [], topic) == Matching(subs, topic);
  }

  /** Appending is all the search does to the results buffer. */
  lemma {:induction false} CollectAppends(nodes: seq<TopicNode>, i: nat, topic: Levels, results: seq<Subscriber>)
    requires ChildrenInRange(nodes) && i < |nodes|
    ensures results <= Collect(nodes, i, topic, results)
    decreases |topic|, 0
  {
    if topic != [] {
      var own := results + nodes[i].wildcardSubscribers;
      BelowAppends(nodes, i, topic[0], topic[1..], own);
      BelowAppends(nodes, i, "+", topic[1..], Below(nodes, i, topic[0], topic[1..], own));
    }
  }

  lemma {:induction false} BelowAppends(nodes: seq<TopicNode>, i: nat, level: string, topic: Levels,
                                        results: seq<Subscriber>)
    requires ChildrenInRange(nodes) && i < |nodes|
    ensures results <= Below(nodes, i, level, topic, results)
    decreases |topic|, 1
  {
    assert InRange(nodes, i);
    if level in nodes[i].children {
      CollectAppends(nodes, nodes[i].children[level], topic, results);
    }
  }

  //
  // Updates
  //

  function NewNode(parent: nat, segment: string): TopicNode {
    TopicNode(parent, segment, map[], [], [])
  }

  function AddChild(nodes: seq<TopicNode>, at: nat, segment: string): seq<TopicNode>
    requires at < |nodes|
  {
    nodes[at := nodes[at].(children := nodes[at].children[segment := |nodes|])] + [NewNode(at, segment)]
  }

  /** The path of a missing child is new. */
  lemma MissingPath(nodes: seq<TopicNode>, paths: seq<Levels>, at: nat, segment: string)
    requires Shape(nodes, paths) && at < |nodes| && segment !in nodes[at].children
    ensures paths[at] + [segment] !in paths
  {
    var path := paths[at] + [segment];
    forall j | 0 <= j < |paths| ensures paths[j] != path {
      if paths[j] == path {
        ChildOf(nodes, paths, at, segment, j);
        assert false;
      }
    }
  }

  /** Growing the arena by a missing child keeps it a tree. */
  lemma AddChildShape(nodes: seq<TopicNode>, paths: seq<Levels>, at: nat, segment: string)
    requires Shape(nodes, paths) && at < |nodes| && segment !in nodes[at].children
    ensures Shape(AddChild(nodes, at, segment), paths + [paths[at] + [segment]])
  {
    var nodes', paths' := AddChild(nodes, at, segment), paths + [paths[at] + [segment]];
    MissingPath(nodes, paths, at, segment);
    forall i, j | 0 <= i < j < |paths'| ensures paths'[i] != paths'[j] {
      assert paths'[i] in paths;
    }
    forall i | 0 <= i < |nodes'| ensures NodeOk(nodes', paths', i) {
      if i < |nodes| {
        assert NodeOk(nodes, paths, i) && paths'[i] == paths[i];
        assert i > 0 ==> paths'[nodes[i].parent] == paths[nodes[i].parent];
        assert forall s :: s in nodes[i].children ==> paths'[nodes[i].children[s]] == paths[nodes[i].children[s]];
      }
    }
  }

  /** Growing the arena moves no subscription. */
  lemma AddChildStores(nodes: seq<TopicNode>, paths: seq<Levels>, subs: Subscriptions, at: nat, segment: string)
    requires Shape(nodes, paths) && Stores(nodes, paths, subs)
    requires at < |nodes| && segment !in nodes[at].children
    ensures Stores(AddChild(nodes, at, segment), paths + [paths[at] + [segment]], subs)
  {
    var path := paths[at] + [segment];
    var nodes', paths' := AddChild(nodes, at, segment), paths + [path];
    MissingPath(nodes, paths, at, segment);
    assert AtPath(subs, path) == {};
    forall i | 0 <= i < |nodes'| ensures HoldsAt(nodes', paths', subs, i) {
      if i < |nodes| {
        assert HoldsAt(nodes, paths, subs, i);
        assert nodes'[i].subscribers == nodes[i].subscribers
               && nodes'[i].wildcardSubscribers == nodes[i].wildcardSubscribers;
      }
    }
  }

  /** Position of a session in a subscriber list, or the list's length. */
  function IndexOf(list: seq<Subscriber>, sessionId: string): (n: nat)
    ensures n <= |list|
    ensures n < |list| ==> list[n].sessionId == sessionId
    ensures forall i :: 0 <= i < n ==> list[i].sessionId != sessionId
  {
    if list == [] || list[0].sessionId == sessionId then 0 else 1 + IndexOf(list[1..], sessionId)
  }

  /** Replaces the session's entry, or appends one. */
  function Upsert(list: seq<Subscriber>, s: Subscriber): seq<Subscriber> {
    var n := IndexOf(list, s.sessionId);
    if n < |list| then list[n := s] else list + [s]
  }

  /** `retain` of every entry of another session. */
  function Without(list: seq<Subscriber>, sessionId: string): seq<Subscriber> {
    if list == [] then []
    else (if list[0].sessionId == sessionId then [] else [list[0]]) + Without(list[1..], sessionId)
  }

  function WithList(node: TopicNode, hash: bool, list: seq<Subscriber>): TopicNode {
    if hash then node.(wildcardSubscribers := list) else node.(subscribers := list)
  }

  lemma UpsertLists(list: seq<Subscriber>, path: Levels, subs: Subscriptions, s: Subscriber)
    requires Lists(list, KeysOf(path, list), subs, AtPath(subs, path))
    ensures var subs' := subs[Key(path, s.sessionId) := s];
            Lists(Upsert(list, s), KeysOf(path, Upsert(list, s)), subs', AtPath(subs', path))
  {
    var key := Key(path, s.sessionId);
    var subs' := subs[key := s];
    var list' := Upsert(list, s);
    var keys, keys' := KeysOf(path, list), KeysOf(path, list');
    var n := IndexOf(list, s.sessionId);
    assert keys'[n] == key;
    assert forall i :: 0 <= i < |list| ==> keys'[i] == keys[i];
    forall i, j | 0 <= i < j < |keys'| ensures keys'[i] != keys'[j] {
      if j < |list| {
        assert keys[i] != keys[j];
      }
    }
    forall k | k in AtPath(subs', path) ensures k in keys' {
      if k != key {
        assert k in keys;
        var i :| 0 <= i < |keys| && keys[i] == k;
        assert keys'[i] == k;
      }
    }
  }

  lemma ListsTail(list: seq<Subscriber>, path: Levels, subs: Subscriptions, target: set<Key>)
    requires Lists(list, KeysOf(path, list), subs, target) && list != []
    ensures var first := Key(path, list[0].sessionId);
            && Lists([list[0]], [first], subs, {first})
            && Lists(list[1..], KeysOf(path, list[1..]), subs, target - {first})
            && first in target
  {
    var keys := KeysOf(path, list);
    assert KeysOf(path, list[1..]) == keys[1..];
    forall k | k in target - {keys[0]} ensures k in keys[1..] {
      var i :| 0 <= i < |keys| && keys[i] == k;
      assert keys[1..][i - 1] == k;
    }
  }

  /** Filtering a duplicate-free list keeps the other sessions' entries and their order. */
  lemma {:induction false} WithoutLists(list: seq<Subscriber>, path: Levels, subs: Subscriptions, sessionId: string,
                                        target: set<Key>)
    requires Lists(list, KeysOf(path, list), subs, target)
    ensures Lists(Without(list, sessionId), KeysOf(path, Without(list, sessionId)), subs,
            target - {Key(path, sessionId)})
    ensures |Without(list, sessionId)| <= |list|
    ensures |Without(list, sessionId)| < |list| <==> Key(path, sessionId) in target
  {
    var gone := Key(path, sessionId);
    if list != [] {
      ListsTail(list, path, subs, target);
      var first := Key(path, list[0].sessionId);
      WithoutLists(list[1..], path, subs, sessionId, target - {first});
      var tail := Without(list[1..], sessionId);
      if first == gone {
        assert target - {gone} == target - {first} - {gone};
        assert Without(list, sessionId) == tail;
      } else {
        assert target - {gone} == {first} + (target - {first} - {gone});
        ListsConcat([list[0]], [first], {first}, tail, KeysOf(path, tail), target - {first} - {gone}, subs);
        assert KeysOf(path, [list[0]] + tail) == [first] + KeysOf(path, tail);
      }
    }
  }

  /** A list is unaffected by table changes elsewhere. */
  lemma HoldsElsewhere(node: TopicNode, path: Levels, subs: Subscriptions, subs': Subscriptions)
    requires Holds(node, path, subs) && AtPath(subs', path) == AtPath(subs, path)
    requires forall k :: k in AtPath(subs, path) ==> subs'[k] == subs[k]
    ensures Holds(node, path, subs')
  {
  }

  ghost predicate OtherNodesKept(nodes: seq<TopicNode>, nodes': seq<TopicNode>) {
    && |nodes| == |nodes'|
    && forall i :: 0 <= i < |nodes| ==>
         nodes'[i] == nodes[i].(subscribers := nodes'[i].subscribers,
           wildcardSubscribers := nodes'[i].wildcardSubscribers)
  }

  lemma ShapeIgnoresLists(nodes: seq<TopicNode>, nodes': seq<TopicNode>, paths: seq<Levels>)
    requires Shape(nodes, paths) && OtherNodesKept(nodes, nodes')
    ensures Shape(nodes', paths)
  {
    forall i | 0 <= i < |nodes| ensures NodeOk(nodes', paths, i) {
      assert NodeOk(nodes, paths, i);
      assert i > 0 ==> nodes'[nodes[i].parent].children == nodes[nodes[i].parent].children;
    }
  }

  /** Replacing the list of one node, when the table changes only at that node's path. */
  lemma ReplaceListStores(nodes: seq<TopicNode>, paths: seq<Levels>, subs: Subscriptions, subs': Subscriptions,
                          at: nat, list: seq<Subscriber>)
    requires Shape(nodes, paths) && Stores(nodes, paths, subs) && at < |nodes|
    requires Lists(list, KeysOf(paths[at], list), subs', AtPath(subs', paths[at]))
    requires forall k: Key :: k.filter != paths[at] ==>
             (k in subs' <==> k in subs) && (k in subs ==> subs'[k] == subs[k])
    ensures var nodes' := nodes[at := WithList(nodes[at], IsHash(paths[at]), list)];
            Shape(nodes', paths) && Stores(nodes', paths, subs')
  {
    var nodes' := nodes[at := WithList(nodes[at], IsHash(paths[at]), list)];
    ShapeIgnoresLists(nodes, nodes', paths);
    assert HoldsAt(nodes, paths, subs, at);
    forall i | 0 <= i < |nodes| ensures HoldsAt(nodes', paths, subs', i) {
      if i != at {
        assert HoldsAt(nodes, paths, subs, i);
        assert paths[i] != paths[at];
        assert AtPath(subs', paths[i]) == AtPath(subs, paths[i]);
        HoldsElsewhere(nodes[i], paths[i], subs, subs');
      }
    }
    forall k | k in subs' ensures k.filter in paths {
      if k.filter == paths[at] { assert paths[at] in paths; } else { assert k in subs; }
    }
  }

  lemma UpsertStores(nodes: seq<TopicNode>, paths: seq<Levels>, subs: Subscriptions, at: nat, s: Subscriber)
    requires Shape(nodes, paths) && Stores(nodes, paths, subs) && at < |nodes|
    ensures var nodes' := nodes[at := WithList(nodes[at], IsHash(paths[at]), Upsert(ListAt(nodes[at], paths[at]), s))];
            Shape(nodes', paths) && Stores(nodes', paths, subs[Key(paths[at], s.sessionId) := s])
  {
    var list := ListAt(nodes[at], paths[at]);
    assert HoldsAt(nodes, paths, subs, at);
    UpsertLists(list, paths[at], subs, s);
    ReplaceListStores(nodes, paths, subs, subs[Key(paths[at], s.sessionId) := s], at, Upsert(list, s));
  }

  lemma WithoutStores(nodes: seq<TopicNode>, paths: seq<Levels>, subs: Subscriptions, at: nat, sessionId: string)
    requires Shape(nodes, paths) && Stores(nodes, paths, subs) && at < |nodes|
    ensures var list := ListAt(nodes[at], paths[at]);
            var nodes' := nodes[at := WithList(nodes[at], IsHash(paths[at]), Without(list, sessionId))];
            && Shape(nodes', paths) && Stores(nodes', paths, subs - {Key(paths[at], sessionId)})
            && (|Without(list, sessionId)| < |list| <==> Key(paths[at], sessionId) in subs)
  {
    var list, key := ListAt(nodes[at], paths[at]), Key(paths[at], sessionId);
    assert HoldsAt(nodes, paths, subs, at);
    WithoutLists(list, paths[at], subs, sessionId, AtPath(subs, paths[at]));
    assert AtPath(subs - {key}, paths[at]) == AtPath(subs, paths[at]) - {key};
    ReplaceListStores(nodes, paths, subs, subs - {key}, at, Without(list, sessionId));
  }

  /** Existing nodes keep their index, parent and level; children are only added. */
  ghost predicate Grown(nodes: seq<TopicNode>, paths: seq<Levels>, nodes': seq<TopicNode>, paths': seq<Levels>) {
    && |nodes| == |paths| && |nodes'| == |paths'|
    && paths <= paths'
    && forall i :: 0 <= i < |nodes| ==>
         && nodes'[i].parent == nodes[i].parent
         && nodes'[i].segment == nodes[i].segment
         && forall s :: s in nodes[i].children ==>
           s in nodes'[i].children && nodes'[i].children[s] == nodes[i].children[s]
  }

  ghost function PrefixesTo(segments: Levels, i: nat): set<Levels>
    requires i <= |segments|
  {
    set n | 0 <= n <= i :: segments[..n]
  }

  lemma PrefixesAdd(filters: set<Levels>, f: Levels)
    ensures Prefixes(filters + {f}) == Prefixes(filters) + PrefixesTo(f, |f|)
  {
    forall p | p in Prefixes(filters + {f}) ensures p in Prefixes(filters) + PrefixesTo(f, |f|) {
      if p != [] {
        var g, n :| g in filters + {f} && 0 <= n <= |g| && p == g[..n];
      }
    }
    forall p | p in PrefixesTo(f, |f|) ensures p in Prefixes(filters + {f}) {
      var n :| 0 <= n <= |f| && p == f[..n];
    }
  }

  lemma GrownThenLists(nodes0: seq<TopicNode>, paths0: seq<Levels>, nodes: seq<TopicNode>, paths: seq<Levels>,
                       at: nat, hash: bool, list: seq<Subscriber>)
    requires Grown(nodes0, paths0, nodes, paths) && at < |nodes|
    ensures Grown(nodes0, paths0, nodes[at := WithList(nodes[at], hash, list)], paths)
  {
  }

  lemma PathSetGrows(paths: seq<Levels>, paths': seq<Levels>, segments: Levels, i: nat, base: set<Levels>)
    requires i < |segments|
    requires if segments[..i + 1] in paths then paths' == paths else paths' == paths + [segments[..i + 1]]
    requires PathSet(paths) == base + PrefixesTo(segments, i)
    ensures PathSet(paths') == base + PrefixesTo(segments, i + 1)
  {
    assert PathSet(paths') == PathSet(paths) + {segments[..i + 1]};
    assert PrefixesTo(segments, i + 1) == PrefixesTo(segments, i) + {segments[..i + 1]};
  }

  class TopicTree {
    var nodes: seq<TopicNode>
    /** Level sequence of each node. */
    ghost var paths: seq<Levels>
    /** The table of current subscriptions. */
    ghost var subs: Subscriptions
    /** Levels of every filter ever subscribed. */
    ghost var ever: set<Levels>

    ghost predicate Indexed()
      reads this
    {
      Shape(nodes, paths) && Stores(nodes, paths, subs)
    }

    ghost predicate Valid()
      reads this
    {
      Indexed() && PathSet(paths) == Prefixes(ever)
    }

    constructor ()
      ensures Valid() && subs == map[] && ever == {}
    {
      nodes, paths, subs, ever := [NewNode(0, "")], [[]], map[], {};
    }

    /** Walks the levels from the root, adding the nodes that are missing. */
    method EnsurePath(segments: Levels) returns (current: nat)
      requires Indexed()
      modifies this`nodes, this`paths
      ensures Indexed()
      ensures current < |nodes| && paths[current] == segments
      ensures Grown(old(nodes), old(paths), nodes, paths)
      ensures PathSet(paths) == old(PathSet(paths)) + PrefixesTo(segments, |segments|)
    {
      current := 0;
      var i := 0;
      assert segments[..0] == [];
      while i < |segments|
        invariant 0 <= i <= |segments|
        invariant Indexed()
        invariant current < |nodes| && paths[current] == segments[..i]
        invariant Grown(old(nodes), old(paths), nodes, paths)
        invariant PathSet(paths) == old(PathSet(paths)) + PrefixesTo(segments, i)
      {
        var segment := segments[i];
        ghost var before := paths;
        assert segments[..i + 1] == segments[..i] + [segment];
        assert NodeOk(nodes, paths, current);
        if segment in nodes[current].children {
          current := nodes[current].children[segment];
          assert paths[current] in paths;
        } else {
          MissingPath(nodes, paths, current, segment);
          AddChildShape(nodes, paths, current, segment);
          AddChildStores(nodes, paths, subs, current, segment);
          nodes, paths, current := AddChild(nodes, current, segment), paths + [paths[current] + [segment]], |nodes|;
        }
        PathSetGrows(before, paths, segments, i, old(PathSet(paths)));
        i := i + 1;
      }
    }

    method Subscribe(filter: string, sessionId: string, qos: QoSLevel, noLocal: bool)
      requires Valid()
      modifies this
      ensures Valid()
      ensures subs == old(subs)[Key(Split(filter), sessionId) := Subscriber(sessionId, qos, noLocal)]
      ensures ever == old(ever) + {Split(filter)}
      ensures Grown(old(nodes), old(paths), nodes, paths)
    {
      hide Shape, Stores, Grown, PathSet, Prefixes, PrefixesTo, Upsert, WithList, Split;
      var segments := Split(filter);
      var idx := EnsurePath(segments);
      var subscriber := Subscriber(sessionId, qos, noLocal);
      var hash := segments[|segments| - 1] == "#";
      var list := if hash then nodes[idx].wildcardSubscribers else nodes[idx].subscribers;
      UpsertStores(nodes, paths, subs, idx, subscriber);
      GrownThenLists(old(nodes), old(paths), nodes, paths, idx, hash, Upsert(list, subscriber));
      PrefixesAdd(ever, segments);
      nodes := nodes[idx := WithList(nodes[idx], hash, Upsert(list, subscriber))];
      subs := subs[Key(segments, sessionId) := subscriber];
      ever := ever + {segments};
    }

    method FindPath(segments: Levels) returns (found: Option<nat>)
      requires Indexed()
      ensures found.Some? <==> segments in paths
      ensures found.Some? ==> found.value < |nodes| && paths[found.value] == segments
    {
      var current: nat, i := 0, 0;
      assert segments[..0] == [];
      while i < |segments|
        invariant 0 <= i <= |segments|
        invariant current < |nodes| && paths[current] == segments[..i]
      {
        var segment := segments[i];
        assert segments[..i + 1] == segments[..i] + [segment];
        assert NodeOk(nodes, paths, current);
        if segment !in nodes[current].children {
          if segments in paths {
            ghost var j :| 0 <= j < |paths| && paths[j] == segments;
            ghost var c := PrefixNode(nodes, paths, j, i + 1);
            ChildOf(nodes, paths, current, segment, c);
            assert false;
          }
          return None;
        }
        current := nodes[current].children[segment];
        i := i + 1;
      }
      assert segments[..i] == segments && paths[current] in paths;
      found := Some(current);
    }

    method Unsubscribe(filter: string, sessionId: string) returns (removed: bool)
      requires Valid()
      modifies this
      ensures Valid()
      ensures removed <==> Key(Split(filter), sessionId) in old(subs)
      ensures subs == old(subs) - {Key(Split(filter), sessionId)}
      ensures ever == old(ever) && Grown(old(nodes), old(paths), nodes, paths) && |nodes| == old(|nodes|)
    {
      var segments := Split(filter);
      ghost var key := Key(segments, sessionId);
      var found := FindPath(segments);
      if found.None? {
        assert key !in subs;
        assert subs - {key} == subs;
        return false;
      }
      var idx := found.value;
      var hash := segments[|segments| - 1] == "#";
      var list := if hash then nodes[idx].wildcardSubscribers else nodes[idx].subscribers;
      WithoutStores(nodes, paths, subs, idx, sessionId);
      GrownThenLists(nodes, paths, nodes, paths, idx, hash, Without(list, sessionId));
      removed := |Without(list, sessionId)| < |list|;
      nodes := nodes[idx := WithList(nodes[idx], hash, Without(list, sessionId))];
      subs := subs - {key};
    }

    method UnsubscribeAll(sessionId: string)
      requires Valid()
      modifies this
      ensures Valid()
      ensures subs == map k | k in old(subs) && k.sessionId != sessionId :: old(subs)[k]
      ensures ever == old(ever) && Grown(old(nodes), old(paths), nodes, paths) && |nodes| == old(|nodes|)
    {
      ghost var before := nodes;
      ghost var subs' := map k | k in subs && k.sessionId != sessionId :: subs[k];
      var i := 0;
      while i < |nodes|
        invariant 0 <= i <= |nodes| && OtherNodesKept(before, nodes)
        invariant forall j :: i <= j < |nodes| ==> nodes[j] == before[j]
        invariant forall j :: 0 <= j < i ==> nodes[j] == Purged(before[j], sessionId)
        invariant paths == old(paths) && subs == old(subs) && ever == old(ever)
      {
        nodes := nodes[i := Purged(nodes[i], sessionId)];
        i := i + 1;
      }
      ShapeIgnoresLists(before, nodes, paths);
      forall j | 0 <= j < |nodes| ensures HoldsAt(nodes, paths, subs', j) {
        assert HoldsAt(before, paths, subs, j);
        PurgedHolds(before[j], paths[j], subs, sessionId);
      }
      subs := subs';
    }

    /** The recursive search, appending to a shared results buffer. */
    method CollectMatches(idx: nat, segments: Levels, depth: nat, results: seq<Subscriber>)
      returns (out: seq<Subscriber>)
      requires ChildrenInRange(nodes) && idx < |nodes| && depth <= |segments|
      ensures out == Collect(nodes, idx, segments[depth..], results)
      decreases |segments| - depth
    {
      assert InRange(nodes, idx);
      var node := nodes[idx];
      out := results + node.wildcardSubscribers;
      if depth >= |segments| {
        out := out + node.subscribers;
        if "#" in node.children {
          out := out + nodes[node.children["#"]].wildcardSubscribers;
        }
        return;
      }
      var segment := segments[depth];
      assert segments[depth..][1..] == segments[depth + 1..];
      if segment in node.children {
        out := CollectMatches(node.children[segment], segments, depth + 1, out);
      }
      if "+" in node.children {
        out := CollectMatches(node.children["+"], segments, depth + 1, out);
      }
      if "#" in node.children {
        out := out + nodes[node.children["#"]].wildcardSubscribers;
      }
    }

    /** Every subscription in the table whose filter matches the topic, each exactly once. */
    method MatchingSubscribers(topic: string) returns (results: seq<Subscriber>)
      requires Valid()
      ensures ChildrenInRange(nodes) && results == Collect(nodes, 0, Split(topic), [])
      ensures NoWildcards(Split(topic)) ==> Enumerates(results, subs, Matching(subs, Split(topic)))
    {
      var segments := Split(topic);
      ShapeInRange(nodes, paths);
      assert segments[0..] == segments;
      results := CollectMatches(0, segments, 0, []);
      if NoWildcards(segments) {
        SearchExact(nodes, paths, subs, segments);
      }
    }

    /** One node for the root and one for each distinct non-empty prefix of a filter ever subscribed. */
    method NodeCount() returns (count: nat)
      requires Valid()
      ensures count == |Prefixes(ever)|
    {
      count := |nodes|;
      DistinctCount(paths);
    }
  }

  function Purged(node: TopicNode, sessionId: string): TopicNode {
    node.(subscribers := Without(node.subscribers, sessionId),
          wildcardSubscribers := Without(node.wildcardSubscribers, sessionId))
  }

  lemma PurgedHolds(node: TopicNode, path: Levels, subs: Subscriptions, sessionId: string)
    requires Holds(node, path, subs)
    ensures Holds(Purged(node, sessionId), path, map k | k in subs && k.sessionId != sessionId :: subs[k])
  {
    var subs' := map k | k in subs && k.sessionId != sessionId :: subs[k];
    WithoutLists(ListAt(node, path), path, subs, sessionId, AtPath(subs, path));
    assert AtPath(subs', path) == AtPath(subs, path) - {Key(path, sessionId)};
  }

  //
  // Topics that contain wildcard levels: the search lists a subscription twice
  //

  /** The search from the root, for every tree and table, lists each matching subscription exactly once. */
  ghost predicate AlwaysExact(topic: Levels) {
    forall nodes, paths, subs: Subscriptions | Shape(nodes, paths) && Stores(nodes, paths, subs) ::
      ChildrenInRange(nodes) && Enumerates(Collect(nodes, 0, topic, []), subs, Matching(subs, topic))
  }

  /** A filter that a topic with its first wildcard level at `w` reaches along two branches. */
  function TwiceReached(topic: Levels, w: nat): Levels
    requires w < |topic|
  {
    topic[..w] + if topic[w] == "#" then ["#"] else ["+", "#"]
  }

  /** An arena that holds a single subscription. */
  lemma SingleTree(f: Levels, s: Subscriber) returns (nodes: seq<TopicNode>, paths: seq<Levels>)
    ensures Shape(nodes, paths) && Stores(nodes, paths, map[Key(f, s.sessionId) := s])
  {
    nodes, paths := [NewNode(0, "")], [[]];
    var at: nat := 0;
    for i := 0 to |f|
      invariant Shape(nodes, paths) && Stores(nodes, paths, map[]) && at < |nodes| && paths[at] == f[..i]
      invariant nodes[at].children == map[]
    {
      AddChildShape(nodes, paths, at, f[i]);
      AddChildStores(nodes, paths, map[], at, f[i]);
      nodes, paths, at := AddChild(nodes, at, f[i]), paths + [paths[at] + [f[i]]], |nodes|;
    }
    assert paths[at] == f;
    assert HoldsAt(nodes, paths, map[], at);
    UpsertLists([], f, map[], s);
    ReplaceListStores(nodes, paths, map[], map[Key(f, s.sessionId) := s], at, [s]);
    nodes := nodes[at := WithList(nodes[at], IsHash(f), [s])];
  }

  /** The child on the way to the only subscription exists. */
  lemma OnTheWay(nodes: seq<TopicNode>, paths: seq<Levels>, f: Levels, s: Subscriber, i: nat, level: string)
    returns (c: nat)
    requires Shape(nodes, paths) && Stores(nodes, paths, map[Key(f, s.sessionId) := s])
    requires i < |nodes| && paths[i] + [level] <= f
    ensures level in nodes[i].children && c == nodes[i].children[level] < |nodes| && paths[c] == paths[i] + [level]
    ensures paths[c] == f && IsHash(f) ==> |nodes[c].wildcardSubscribers| >= 1
  {
    var subs := map[Key(f, s.sessionId) := s];
    assert Key(f, s.sessionId) in subs;
    if level !in nodes[i].children {
      NothingBelow(nodes, paths, subs, i, level);
      assert false;
    }
    assert NodeOk(nodes, paths, i);
    c := nodes[i].children[level];
    assert HoldsAt(nodes, paths, subs, c);
    if paths[c] == f {
      assert Key(f, s.sessionId) in AtPath(subs, f);
    }
  }

  lemma {:induction false} ListedTwice(nodes: seq<TopicNode>, paths: seq<Levels>, s: Subscriber, topic: Levels, w: nat,
                                       i: nat, d: nat, results: seq<Subscriber>)
    requires d <= w < |topic| && (topic[w] == "+" || topic[w] == "#")
    requires Shape(nodes, paths) && Stores(nodes, paths, map[Key(TwiceReached(topic, w), s.sessionId) := s])
    requires i < |nodes| && paths[i] == topic[..d]
    ensures ChildrenInRange(nodes) && |Collect(nodes, i, topic[d..], results)| >= |results| + 2
    decreases w - d
  {
    var f := TwiceReached(topic, w);
    ShapeInRange(nodes, paths);
    var rest := topic[d + 1..];
    assert topic[d..][1..] == rest && topic[d..][0] == topic[d];
    assert topic[..d + 1] == topic[..d] + [topic[d]];
    var own := results + nodes[i].wildcardSubscribers;
    var exact := Below(nodes, i, topic[d], rest, own);
    BelowAppends(nodes, i, "+", rest, exact);
    if d < w {
      assert topic[..d + 1] <= f;
      var c := OnTheWay(nodes, paths, f, s, i, topic[d]);
      ListedTwice(nodes, paths, s, topic, w, c, d + 1, own);
    } else if topic[w] == "#" {
      var c := OnTheWay(nodes, paths, f, s, i, "#");
      OneBelow(nodes, c, rest, own);
    } else {
      assert f == topic[..w + 1] + ["#"];
      var c := OnTheWay(nodes, paths, f, s, i, "+");
      var h := OnTheWay(nodes, paths, f, s, c, "#");
      OneBelow(nodes, c, rest, own);
      OneBelow(nodes, c, rest, exact);
    }
  }

  /** A node with a wildcard list, or with a `#` child that has one, adds at least one result. */
  lemma OneBelow(nodes: seq<TopicNode>, c: nat, topic: Levels, results: seq<Subscriber>)
    requires ChildrenInRange(nodes) && c < |nodes| && InRange(nodes, c)
    requires |nodes[c].wildcardSubscribers| + |HashList(nodes, c)| >= 1
    ensures |Collect(nodes, c, topic, results)| >= |results| + 1
  {
    if topic != [] {
      var own := results + nodes[c].wildcardSubscribers;
      BelowAppends(nodes, c, topic[0], topic[1..], own);
      BelowAppends(nodes, c, "+", topic[1..], Below(nodes, c, topic[0], topic[1..], own));
    }
  }

  lemma NotOnce(out: seq<Subscriber>, subs: Subscriptions, key: Key, target: set<Key>)
    requires |out| >= 2 && target <= {key}
    ensures !Enumerates(out, subs, target)
  {
    forall keys ensures !Lists(out, keys, subs, target) {
      if |keys| == |out| && keys[0] in target && keys[1] in target {
        assert keys[0] == keys[1];
      }
    }
  }

  /** The search is exact on a topic, whatever the tree holds, iff the topic has no wildcard level. */
  lemma ExactIffNoWildcards(topic: Levels)
    ensures AlwaysExact(topic) <==> NoWildcards(topic)
  {
    if NoWildcards(topic) {
      forall nodes, paths, subs: Subscriptions | Shape(nodes, paths) && Stores(nodes, paths, subs)
        ensures ChildrenInRange(nodes)
        ensures Enumerates(Collect(nodes, 0, topic, []), subs, Matching(subs, topic))
      {
        SearchExact(nodes, paths, subs, topic);
      }
    } else {
      var w :| 0 <= w < |topic| && (topic[w] == "+" || topic[w] == "#");
      var s := Subscriber("", AtMostOnce, false);
      var key := Key(TwiceReached(topic, w), "");
      var subs := map[key := s];
      var nodes, paths := SingleTree(key.filter, s);
      assert topic[0..] == topic;
      ListedTwice(nodes, paths, s, topic, w, 0, 0, []);
      var matching := Matching(subs, topic);
      NotOnce(Collect(nodes, 0, topic, []), subs, key, matching);
    }
  }
}
