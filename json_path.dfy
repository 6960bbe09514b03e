/**
 * Nested-path access into JSON values, as the library version of the service
 * does it: the reading loop of `get` and the `path.reduce` of `set`.
 */
module JsonPath {
  import opened Wrappers
  import opened Json

  /**
   * The property read `j[seg]`: an object's member, or `undefined`. Reads of
   * array indices, string indices, `length` and inherited members are not
   * modelled and read as `undefined`.
   */
  function Member(j: Json, seg: string): JsValue
  {
    if j.JObj? && seg in j.fields then Defined(j.fields[seg]) else Undefined
  }

  /**
   * The loop `for (const s of path) parsed = parsed[s]`: `None` when a read
   * from `undefined` or `null` throws a TypeError.
   */
  function Walk(cur: JsValue, path: seq<string>): Option<JsValue>
    decreases |path|
  {
    if path == [] then Some(cur)
    else match cur
      case Undefined => None
      case Defined(JNull) => None
      case Defined(j) => Walk(Member(j, path[0]), path[1..])
  }

  /**
   * What the `path.reduce` of `set` leaves in the tree `t`: every missing
   * intermediate member becomes `{}`, the last segment is set to `v`.
   * `None` when it would read from `null` or assign into a value that is
   * not an object, which throws a TypeError in strict mode.
   */
  function Assign(t: Json, path: seq<string>, v: Json): Option<Json>
    requires path != []
    decreases |path|
  {
    if !t.JObj? then None
    else if |path| == 1 then Some(JObj(t.fields[path[0] := v]))
    else
      var child := if path[0] in t.fields then t.fields[path[0]] else JObj(map[]);
      match Assign(child, path[1..], v)
      case None => None
      case Some(c) => Some(JObj(t.fields[path[0] := c]))
  }

  /** `p` and `q` agree on their first `i` segments and differ at segment `i`. */
  predicate DivergeAt(p: seq<string>, q: seq<string>, i: nat)
  {
    i < |p| && i < |q| && p[..i] == q[..i] && p[i] != q[i]
  }

  /** A successful assignment along `p` is read back along `p`. */
  lemma {:induction false} AssignThenWalk(t: Json, p: seq<string>, v: Json)
    requires p != [] && Assign(t, p, v).Some?
    ensures Walk(Defined(Assign(t, p, v).value), p) == Some(Defined(v))
    decreases |p|
  {
    var m := t.fields;
    if |p| == 1 {
      assert Member(Assign(t, p, v).value, p[0]) == Defined(v);
    } else {
      var child := if p[0] in m then m[p[0]] else JObj(map[]);
      var c := Assign(child, p[1..], v).value;
      assert Assign(t, p, v).value == JObj(m[p[0] := c]);
      AssignThenWalk(child, p[1..], v);
    }
  }

  /**
   * An assignment along `p` leaves alone every value reachable along a path
   * `q` that branches off `p`: siblings already stored are kept.
   */
  lemma {:induction false} AssignFrame(t: Json, p: seq<string>, v: Json, q: seq<string>, i: nat)
    requires p != [] && Assign(t, p, v).Some?
    requires DivergeAt(p, q, i)
    requires Walk(Defined(t), q).Some?
    ensures Walk(Defined(Assign(t, p, v).value), q) == Walk(Defined(t), q)
  {
    var m := t.fields;
    var t' := Assign(t, p, v).value;
    if i == 0 {
      assert q[0] != p[0];
      assert t'.JObj? && q[0] !in t'.fields - m.Keys && (q[0] in m ==> t'.fields[q[0]] == m[q[0]]);
      assert Member(t', q[0]) == Member(t, q[0]);
    } else {
      assert p[0] == p[..i][0] == q[..i][0] == q[0];
      var child := if p[0] in m then m[p[0]] else JObj(map[]);
      var c := Assign(child, p[1..], v).value;
      assert t' == JObj(m[p[0] := c]);
      assert Member(t', q[0]) == Defined(c);
      if p[0] in m {
        assert Member(t, q[0]) == Defined(child);
        assert p[1..][..i - 1] == p[..i][1..] == q[..i][1..] == q[1..][..i - 1];
        AssignFrame(child, p[1..], v, q[1..], i - 1);
      } else {
        // Member(t, q[0]) is undefined and q goes on, so the old walk threw.
        assert false;
      }
    }
  }

  /** Writing along any path into an empty object succeeds: all intermediates are created. */
  lemma {:induction false} AssignIntoEmpty(p: seq<string>, v: Json)
    requires p != []
    ensures Assign(JObj(map[]), p, v).Some?
  {
    if |p| > 1 {
      AssignIntoEmpty(p[1..], v);
    }
  }

  // The reduce works on the parsed tree in place. Here the objects passed on
  // the way down are kept as frames, each the fields of one object and the
  // segment taken out of it, and are rebuilt on the way back up.

  /** The tree obtained by putting `node` back under the objects of `frames`. */
  function Plug(frames: seq<(map<string, Json>, string)>, node: Json): Json
    decreases |frames|
  {
    if frames == [] then node
    else
      var f := frames[|frames| - 1];
      Plug(frames[..|frames| - 1], JObj(f.0[f.1 := node]))
  }

  function Lift(frames: seq<(map<string, Json>, string)>, r: Option<Json>): Option<Json>
  {
    match r
    case None => None
    case Some(node) => Some(Plug(frames, node))
  }

  /**
   * The `path.reduce` of `set` with its `level` counter: descends `path`
   * from `cache`, creating `{}` where a member is missing, and sets the last
   * segment to `value`. Returns the rebuilt tree, or `None` for the TypeError.
   */
  method BuildPath(cache: Json, path: seq<string>, value: Json) returns (r: Option<Json>)
    requires path != []
    ensures r == Assign(cache, path, value)
  {
    var frames: seq<(map<string, Json>, string)> := [];
    var a := cache;
    var level := 0;
    while level < |path| - 1
      invariant 0 <= level <= |path| - 1
      invariant Assign(cache, path, value) == Lift(frames, Assign(a, path[level..], value))
    {
      if !a.JObj? {
        return None;
      }
      var b := path[level];
      var child := if b in a.fields then a.fields[b] else JObj(map[]);
      assert path[level..][0] == b && path[level..][1..] == path[level + 1..];
      assert (frames + [(a.fields, b)])[..|frames|] == frames;
      frames := frames + [(a.fields, b)];
      a := child;
      level := level + 1;
    }
    if !a.JObj? {
      return None;
    }
    assert path[level..] == [path[level]];
    var node := JObj(a.fields[path[level] := value]);
    assert frames[..|frames|] == frames;
    var k := |frames|;
    while k > 0
      invariant 0 <= k <= |frames|
      invariant Assign(cache, path, value) == Some(Plug(frames[..k], node))
    {
      k := k - 1;
      assert frames[..k + 1][..k] == frames[..k];
      node := JObj(frames[k].0[frames[k].1 := node]);
    }
    assert frames[..0] == [];
    r := Some(node);
  }
}
