/**
 * Name resolution while rendering (`src/tpl/render_context.rs`): a stack of loop-local
 * bindings over a root value, exact names first, then dotted paths through nested maps.
 */
module RenderContext {
  import opened Wrappers
  import opened Strings
  import opened Values

  /** What a context holds at one moment: the root parameter value and the local bindings. */
  datatype Scope = Scope(root: Value, locals: seq<(string, Value)>)

  /** The most recently pushed local binding of `key`, searching from the top of the stack. */
  function FindLocal(locals: seq<(string, Value)>, key: string): (r: Option<Value>)
    ensures r.Some? <==> exists i :: 0 <= i < |locals| && locals[i].0 == key
    ensures r.Some? ==> exists i :: 0 <= i < |locals| && locals[i] == (key, r.value)
                                  && (forall j :: i < j < |locals| ==> locals[j].0 != key)
  {
    if locals == [] then None
    else if locals[|locals| - 1].0 == key then Some(locals[|locals| - 1].1)
    else
      var r := FindLocal(locals[..|locals| - 1], key);
      assert forall i :: 0 <= i < |locals| - 1 ==> locals[..|locals| - 1][i] == locals[i];
      r
  }

  /** `get_from_scope`: locals first, then a key of the root when the root is a map. */
  function GetFromScope(sc: Scope, key: string): Option<Value> {
    match FindLocal(sc.locals, key)
    case Some(v) => Some(v)
    case None =>
      if sc.root.Map? && key in sc.root.entries then Some(sc.root.entries[key]) else None
  }

  /** The walk of `resolve_path` over the segments: each step needs a map holding the segment. */
  function WalkPath(current: Value, parts: seq<string>): Option<Value>
    decreases |parts|
  {
    if parts == [] then Some(current)
    else if current.Map? && parts[0] in current.entries then WalkPath(current.entries[parts[0]], parts[1..])
    else None
  }

  /** `lookup`: the exact name, else the head before the first `.` and a walk of the rest, else `Null`. */
  function LookupIn(sc: Scope, key: string): Value {
    match GetFromScope(sc, key)
    case Some(v) => v
    case None =>
      match SplitOnce(key, ".")
      case None => Null
      case Some((head, rest)) =>
        match GetFromScope(sc, head)
        case None => Null
        case Some(hv) =>
          match WalkPath(hv, SplitOn(rest, "."))
          case Some(target) => target
          case None => Null
  }

  /** `resolve_path`: the loop over `path.split('.')`, reassigning `current`. */
  method ResolvePath(current: Value, path: string) returns (r: Option<Value>)
    ensures r == WalkPath(current, SplitOn(path, "."))
  {
    var parts := SplitOn(path, ".");
    var cur := current;
    var i := 0;
    while i < |parts|
      invariant 0 <= i <= |parts|
      invariant WalkPath(cur, parts[i..]) == WalkPath(current, parts)
    {
      assert parts[i..][1..] == parts[i + 1..];
      if cur.Map? && parts[i] in cur.entries {
        cur := cur.entries[parts[i]];
      } else {
        return None;
      }
      i := i + 1;
    }
    return Some(cur);
  }

  /** The rendering context: a root value and the stack of loop-local bindings. */
  class Context {
    const root: Value
    var locals: seq<(string, Value)>

    function Current(): Scope
      reads this
    {
      Scope(root, locals)
    }

    /** `Context::new`: no local bindings yet. */
    constructor (root: Value)
      ensures this.root == root && locals == []
    {
      this.root := root;
      locals := [];
    }

    /** `push`: bind `key` on top of the stack. */
    method Push(key: string, value: Value)
      modifies this
      ensures locals == old(locals) + [(key, value)]
    {
      locals := locals + [(key, value)];
    }

    /** `pop`: drop the top binding; nothing happens on an empty stack. */
    method Pop()
      modifies this
      ensures locals == if old(locals) == [] then [] else old(locals)[..|old(locals)| - 1]
    {
      if locals != [] {
        locals := locals[..|locals| - 1];
      }
    }

    /** `lookup`, calling the path walk of `resolve_path`. */
    method Lookup(key: string) returns (v: Value)
      ensures v == LookupIn(Current(), key)
    {
      var exact := GetFromScope(Current(), key);
      if exact.Some? {
        return exact.value;
      }
      var split := SplitOnce(key, ".");
      if split.Some? {
        var (head, rest) := split.value;
        var headValue := GetFromScope(Current(), head);
        if headValue.Some? {
          var target := ResolvePath(headValue.value, rest);
          if target.Some? {
            return target.value;
          }
        }
      }
      return Null;
    }
  }

  // ------------------------------------------------------------------------ properties

  /** The binding pushed last shadows every other binding of the same name and the root. */
  lemma LookupPushed(sc: Scope, key: string, v: Value)
    ensures LookupIn(Scope(sc.root, sc.locals + [(key, v)]), key) == v
  {
  }

  /** A binding pushed for another name changes nothing for `key`'s exact resolution. */
  lemma PushOther(sc: Scope, other: string, v: Value, key: string)
    requires other != key
    ensures GetFromScope(Scope(sc.root, sc.locals + [(other, v)]), key) == GetFromScope(sc, key)
  {
    var ls := sc.locals + [(other, v)];
    assert ls[..|ls| - 1] == sc.locals;
  }

  /** Locals win over the root; with a root that is not a map only locals resolve exact names. */
  lemma LocalsFirst(sc: Scope, key: string)
    ensures FindLocal(sc.locals, key).Some? ==> GetFromScope(sc, key) == FindLocal(sc.locals, key)
    ensures FindLocal(sc.locals, key).None? && !sc.root.Map? ==> GetFromScope(sc, key).None?
    ensures FindLocal(sc.locals, key).None? && sc.root.Map? ==>
      GetFromScope(sc, key) == (if key in sc.root.entries then Some(sc.root.entries[key]) else None)
  {
  }

  /** An exact name, even one containing `.`, wins over walking a dotted path. */
  lemma ExactWins(sc: Scope, key: string)
    requires GetFromScope(sc, key).Some?
    ensures LookupIn(sc, key) == GetFromScope(sc, key).value
  {
  }

  /** A name that resolves neither exactly nor as a dotted path yields `Null`; `lookup` never fails. */
  lemma UnresolvedIsNull(sc: Scope, key: string)
    requires GetFromScope(sc, key).None? && !ContainsChar(key, '.')
    ensures LookupIn(sc, key) == Null
  {
    ContainsSingle(key, '.');
  }

  /**
   * For `head.rest` with no exact match and no `.` in `head`, the head is resolved in scope and
   * the rest walked segment by segment; a missing key or a non-map on the way yields `Null`.
   */
  lemma DottedLookup(sc: Scope, head: string, rest: string)
    requires !ContainsChar(head, '.') && GetFromScope(sc, head + "." + rest).None?
    ensures LookupIn(sc, head + "." + rest) ==
      match GetFromScope(sc, head)
      case None => Null
      case Some(hv) => match WalkPath(hv, SplitOn(rest, ".")) case Some(t) => t case None => Null
  {
    SplitOnceAt(head, '.', rest);
  }

  /** Walking a concatenation of segment lists is walking one list, then the other. */
  lemma {:induction false} WalkPathAppend(v: Value, p: seq<string>, q: seq<string>)
    ensures WalkPath(v, p + q) == match WalkPath(v, p) case None => None case Some(w) => WalkPath(w, q)
    decreases |p|
  {
    if p != [] {
      assert (p + q)[1..] == p[1..] + q;
      if v.Map? && p[0] in v.entries {
        WalkPathAppend(v.entries[p[0]], p[1..], q);
      }
    } else {
      assert p + q == q;
    }
  }

  /** Two levels of maps resolve `a.b` to the inner entry, and a missing inner key to `Null`. */
  lemma NestedMaps(locals: seq<(string, Value)>, m: map<string, Value>, a: string, b: string)
    requires !ContainsChar(a, '.') && !ContainsChar(b, '.')
    requires FindLocal(locals, a).None? && FindLocal(locals, a + "." + b).None?
    requires a in m && m[a].Map? && (a + "." + b) !in m
    ensures LookupIn(Scope(Map(m), locals), a + "." + b) ==
      if b in m[a].entries then m[a].entries[b] else Null
  {
    DottedLookup(Scope(Map(m), locals), a, b);
    ContainsSingle(b, '.');
    SplitOnWithout(b, ".");
  }

  /** `pop` after `push` restores the stack. */
  lemma PushPop(locals: seq<(string, Value)>, key: string, v: Value)
    ensures (locals + [(key, v)])[..|locals|] == locals
  {
  }
}
