/**
 * The template parser (`src/tpl/parser.rs`): a cursor over the template text, a stack of
 * node lists (one per nesting level) and a stack of open tags.
 *
 * The functions describe one step of the main loop on a `PState` value; the `Parser` class
 * is the stack machine itself, each of its methods proved to move its fields as the matching
 * function says.
 */
module TemplateParser {
  import opened Wrappers
  import opened Strings
  import opened TemplateAst
  import opened TemplateScan

  /** An open `<if>` or `<foreach>` tag with the attributes it was opened with. */
  datatype Frame =
    | IfFrame(test: Expr)
    | ForeachFrame(item: string, collection: string, open: string, separator: string, close: string)

  /** The cursor, the node lists of the open levels (the root first) and the open tags. */
  datatype PState = PState(pos: nat, levels: seq<seq<AstNode>>, frames: seq<Frame>)

  /** A fresh parser: at the start, with the root level only. */
  const Start: PState := PState(0, [[]], [])

  /** The cursor is within the text and there is exactly one more level than open tags. */
  predicate Shaped(t: string, st: PState) {
    st.pos <= |t| && |st.levels| == |st.frames| + 1
  }

  function Last<T>(s: seq<T>): T
    requires s != []
  {
    s[|s| - 1]
  }

  function DropLast<T>(s: seq<T>): seq<T>
    requires s != []
  {
    s[..|s| - 1]
  }

  // ------------------------------------------------------------ append_node / append_text

  /** `append_node`: push onto the innermost level, if there is one. */
  function AppendNodeTo(levels: seq<seq<AstNode>>, n: AstNode): (r: seq<seq<AstNode>>)
    ensures |r| == |levels|
  {
    if levels == [] then levels else DropLast(levels) + [Last(levels) + [n]]
  }

  /** `append_text` on one node list: extend a trailing `Text` node, or start a new one. */
  function MergeText(ns: seq<AstNode>, s: string): seq<AstNode> {
    if ns != [] && Last(ns).Text? then DropLast(ns) + [Text(Last(ns).text + s)] else ns + [Text(s)]
  }

  /** `append_text` on the innermost level, if there is one. */
  function AppendTextTo(levels: seq<seq<AstNode>>, s: string): (r: seq<seq<AstNode>>)
    ensures |r| == |levels|
  {
    if levels == [] then levels else DropLast(levels) + [MergeText(Last(levels), s)]
  }

  // ------------------------------------------------------------------ trim_text_nodes

  /** The first half of `trim_text_nodes`: leading whitespace of a first `Text` node. */
  function TrimFirst(ns: seq<AstNode>): seq<AstNode> {
    if ns != [] && ns[0].Text? then
      var text := ns[0].text;
      var trimmed := TrimStart(text);
      if '\n' in text[..|text| - |trimmed|] then
        if trimmed == [] then ns[1..] else [Text(trimmed)] + ns[1..]
      else ns
    else ns
  }

  /** The second half: trailing whitespace of the (possibly new) last `Text` node. */
  function TrimLast(ns: seq<AstNode>): seq<AstNode> {
    if ns != [] && Last(ns).Text? then
      var text := Last(ns).text;
      var trimmed := TrimEnd(text);
      if '\n' in text[|trimmed|..] then
        if trimmed == [] then DropLast(ns) else DropLast(ns) + [Text(trimmed)]
      else ns
    else ns
  }

  /** `trim_text_nodes`, applied to the body of a tag when it is closed. */
  function TrimTextNodes(ns: seq<AstNode>): seq<AstNode> {
    TrimLast(TrimFirst(ns))
  }

  // ------------------------------------------------------------------------- tags

  /** The node a closed tag becomes, with its (already trimmed) body. */
  function FrameNode(f: Frame, body: seq<AstNode>): AstNode {
    match f
    case IfFrame(test) => If(test, body)
    case ForeachFrame(item, collection, open, separator, close) => Foreach(item, collection, open, separator, close, body)
  }

  /** Pop the innermost tag and its level, trim the level and append the node to the parent. */
  function CloseTop(st: PState): (r: PState)
    requires |st.levels| == |st.frames| + 1 && st.frames != []
    ensures r.pos == st.pos && r.frames == DropLast(st.frames) && |r.levels| == |st.levels| - 1
  {
    var body := TrimTextNodes(Last(st.levels));
    PState(st.pos, AppendNodeTo(DropLast(st.levels), FrameNode(Last(st.frames), body)), DropLast(st.frames))
  }

  /** The closing `>` of a tag lies after its opening word when that word holds no `>`. */
  lemma TagEndAfterWord(rem: string, word: string, e: nat)
    requires StartsWith(rem, word) && '>' !in word
    requires e < |rem| && rem[e] == '>'
    ensures e >= |word|
  {
    assert forall i :: 0 <= i < |word| ==> rem[..|word|][i] == rem[i];
  }

  /** `handle_if_tag`: the tag needs its `>` and a `test` attribute. */
  function IfTag(rem: string, st: PState): Option<PState>
    requires StartsWith(rem, "<if ")
  {
    match TagEnd(rem)
    case None => None
    case Some(e) =>
      assert e >= 4 by { TagEndAfterWord(rem, "<if ", e); }
      var attrs := Attributes(rem[4..e]);
      if "test" in attrs then
        Some(PState(st.pos + e + 1, st.levels + [[]], st.frames + [IfFrame(ExprOf(attrs["test"]))]))
      else None
  }

  /** The value of an optional attribute, or its default. */
  function AttrOr(attrs: map<string, string>, key: string, default: string): string {
    if key in attrs then attrs[key] else default
  }

  /** `handle_foreach_tag`: needs `item` and `collection`; `open`, `separator`, `close` default to "", ",", "". */
  function ForeachTag(rem: string, st: PState): Option<PState>
    requires StartsWith(rem, "<foreach ")
  {
    match TagEnd(rem)
    case None => None
    case Some(e) =>
      assert e >= 9 by { TagEndAfterWord(rem, "<foreach ", e); }
      var attrs := Attributes(rem[9..e]);
      if "item" in attrs && "collection" in attrs then
        var f := ForeachFrame(attrs["item"], attrs["collection"], AttrOr(attrs, "open", ""),
                              AttrOr(attrs, "separator", ","), AttrOr(attrs, "close", ""));
        Some(PState(st.pos + e + 1, st.levels + [[]], st.frames + [f]))
      else None
  }

  /** `handle_include_tag`: needs a `refid` attribute; the node goes to the innermost level. */
  function IncludeTag(rem: string, st: PState): Option<PState>
    requires StartsWith(rem, "<include")
  {
    match TagEnd(rem)
    case None => None
    case Some(e) =>
      assert e >= 8 by { TagEndAfterWord(rem, "<include", e); }
      var attrs := Attributes(rem[8..e]);
      if "refid" in attrs then
        Some(PState(st.pos + e + 1, AppendNodeTo(st.levels, Include(attrs["refid"])), st.frames))
      else None
  }

  /** `handle_close_tag`: a closing tag closes only an innermost open tag of the same kind. */
  function CloseTag(rem: string, st: PState): Option<PState>
    requires |st.levels| == |st.frames| + 1
  {
    if StartsWith(rem, "</if>") && st.frames != [] && Last(st.frames).IfFrame? then
      var c := CloseTop(st);
      Some(c.(pos := c.pos + 5))
    else if StartsWith(rem, "</foreach>") && st.frames != [] && Last(st.frames).ForeachFrame? then
      var c := CloseTop(st);
      Some(c.(pos := c.pos + 10))
    else None
  }

  /** `try_parse_tag`: dispatch on how the rest of the text starts. */
  function TryTag(t: string, st: PState): (r: Option<PState>)
    requires Shaped(t, st) && st.pos < |t|
    ensures r.Some? ==> Shaped(t, r.value) && r.value.pos > st.pos
  {
    var rem := t[st.pos..];
    if StartsWith(rem, "</") then CloseTag(rem, st)
    else if StartsWith(rem, "<if ") then IfTag(rem, st)
    else if StartsWith(rem, "<foreach ") then ForeachTag(rem, st)
    else if StartsWith(rem, "<include") then IncludeTag(rem, st)
    else None
  }

  // ------------------------------------------------------------- variables and text

  /** `try_parse_var`: `#{`, then the first `}`; the trimmed name between must not be empty. */
  function TryVar(t: string, st: PState): (r: Option<PState>)
    requires Shaped(t, st) && st.pos < |t|
    ensures r.Some? ==> Shaped(t, r.value) && r.value.pos > st.pos
  {
    var rem := t[st.pos..];
    if StartsWith(rem, "#{") then
      match FindChar(rem, '}')
      case None => None
      case Some(e) =>
        assert e >= 2 by { assert rem[..2][0] == '#' && rem[..2][1] == '{'; }
        var name := Trim(rem[2..e]);
        if name != [] then Some(PState(st.pos + e + 1, AppendNodeTo(st.levels, AstNode.Var(name)), st.frames))
        else None
    else None
  }

  /** Where `parse_text` stops: the first `<` or `#{`, or the end. */
  function TextStop(rem: string): (n: nat)
    ensures n <= |rem|
  {
    var nextTag := match FindChar(rem, '<') case Some(i) => i case None => |rem|;
    var nextVar := match FindSub(rem, "#{") case Some(i) => i case None => |rem|;
    if nextTag < nextVar then nextTag else nextVar
  }

  /** `parse_text`: the text up to the next stop, or a single character when stopped on one. */
  function TextStep(t: string, st: PState): (r: PState)
    requires Shaped(t, st) && st.pos < |t|
    ensures Shaped(t, r) && r.pos > st.pos
  {
    var rem := t[st.pos..];
    var stop := TextStop(rem);
    if stop > 0 then PState(st.pos + stop, AppendTextTo(st.levels, rem[..stop]), st.frames)
    else PState(st.pos + 1, AppendTextTo(st.levels, rem[..1]), st.frames)
  }

  /** One iteration of the main loop of `parse`: a tag, else a variable, else text. */
  function Step(t: string, st: PState): (r: PState)
    requires Shaped(t, st) && st.pos < |t|
    ensures Shaped(t, r) && r.pos > st.pos
  {
    match TryTag(t, st)
    case Some(r) => r
    case None =>
      match TryVar(t, st)
      case Some(r) => r
      case None => TextStep(t, st)
  }

  /** The main loop, run to the end of the text. */
  function Run(t: string, st: PState): (r: PState)
    requires Shaped(t, st)
    ensures Shaped(t, r) && r.pos == |t|
    decreases |t| - st.pos
  {
    if st.pos == |t| then st else Run(t, Step(t, st))
  }

  /** `close_remaining_tags`: close the open tags, innermost first. */
  function CloseAll(st: PState): (r: PState)
    requires |st.levels| == |st.frames| + 1
    ensures r.frames == [] && |r.levels| == 1 && r.pos == st.pos
    decreases |st.frames|
  {
    if st.frames == [] then st else CloseAll(CloseTop(st))
  }

  /** `parse_template`: the root level once the text is consumed and every tag is closed. */
  function TemplateNodes(t: string): seq<AstNode> {
    CloseAll(Run(t, Start)).levels[0]
  }

  // ---------------------------------------------------------------------- the parser

  /** The parser object of `parse_template`, with the fields the Rust struct has. */
  class Parser {
    const template: string
    var pos: nat
    var nodesStack: seq<seq<AstNode>>
    var tagStack: seq<Frame>

    function State(): PState
      reads this
    {
      PState(pos, nodesStack, tagStack)
    }

    predicate Valid()
      reads this
    {
      Shaped(template, State())
    }

    constructor (template: string)
      ensures this.template == template && State() == Start && Valid()
    {
      this.template := template;
      pos := 0;
      nodesStack := [[]];
      tagStack := [];
    }

    /** `parse`: the main loop, then closing what is still open, then the root level. */
    method Parse() returns (nodes: seq<AstNode>)
      requires Valid()
      modifies this
      ensures nodes == CloseAll(Run(template, old(State()))).levels[0]
      ensures nodesStack == [] && tagStack == []
    {
      while pos < |template|
        invariant Valid()
        invariant Run(template, State()) == Run(template, old(State()))
        decreases |template| - pos
      {
        var tagged := TryParseTag();
        if tagged {
          continue;
        }
        var isVar := TryParseVar();
        if isVar {
          continue;
        }
        ParseText();
      }
      CloseRemainingTags();
      nodes := nodesStack[0];
      nodesStack := [];
    }

    /** `try_parse_tag`. */
    method TryParseTag() returns (b: bool)
      requires Valid() && pos < |template|
      modifies this
      ensures b <==> TryTag(template, old(State())).Some?
      ensures State() == if b then TryTag(template, old(State())).value else old(State())
    {
      var remaining := template[pos..];
      if StartsWith(remaining, "</") {
        b := HandleCloseTag(remaining);
      } else if StartsWith(remaining, "<if ") {
        b := HandleIfTag(remaining);
      } else if StartsWith(remaining, "<foreach ") {
        b := HandleForeachTag(remaining);
      } else if StartsWith(remaining, "<include") {
        b := HandleIncludeTag(remaining);
      } else {
        b := false;
      }
    }

    /** `handle_if_tag`. */
    method HandleIfTag(remaining: string) returns (b: bool)
      requires StartsWith(remaining, "<if ")
      modifies this
      ensures b <==> IfTag(remaining, old(State())).Some?
      ensures State() == if b then IfTag(remaining, old(State())).value else old(State())
    {
      var end := FindTagEnd(remaining);
      if end.Some? {
        var endIdx := end.value;
        TagEndAfterWord(remaining, "<if ", endIdx);
        var attrs := ParseAttributes(remaining[4..endIdx]);
        if "test" in attrs {
          var test := ParseExpr(attrs["test"]);
          nodesStack := nodesStack + [[]];
          tagStack := tagStack + [IfFrame(test)];
          pos := pos + endIdx + 1;
          return true;
        }
      }
      return false;
    }

    /** `handle_foreach_tag`. */
    method HandleForeachTag(remaining: string) returns (b: bool)
      requires StartsWith(remaining, "<foreach ")
      modifies this
      ensures b <==> ForeachTag(remaining, old(State())).Some?
      ensures State() == if b then ForeachTag(remaining, old(State())).value else old(State())
    {
      var end := FindTagEnd(remaining);
      if end.Some? {
        var endIdx := end.value;
        TagEndAfterWord(remaining, "<foreach ", endIdx);
        var attrs := ParseAttributes(remaining[9..endIdx]);
        if "item" in attrs && "collection" in attrs {
          var open := if "open" in attrs then attrs["open"] else "";
          var separator := if "separator" in attrs then attrs["separator"] else ",";
          var close := if "close" in attrs then attrs["close"] else "";
          nodesStack := nodesStack + [[]];
          tagStack := tagStack + [ForeachFrame(attrs["item"], attrs["collection"], open, separator, close)];
          pos := pos + endIdx + 1;
          return true;
        }
      }
      return false;
    }

    /** `handle_include_tag`. */
    method HandleIncludeTag(remaining: string) returns (b: bool)
      requires StartsWith(remaining, "<include")
      modifies this
      ensures b <==> IncludeTag(remaining, old(State())).Some?
      ensures State() == if b then IncludeTag(remaining, old(State())).value else old(State())
    {
      var end := FindTagEnd(remaining);
      if end.Some? {
        var endIdx := end.value;
        TagEndAfterWord(remaining, "<include", endIdx);
        var attrs := ParseAttributes(remaining[8..endIdx]);
        if "refid" in attrs {
          AppendNode(Include(attrs["refid"]));
          pos := pos + endIdx + 1;
          return true;
        }
      }
      return false;
    }

    /** `handle_close_tag`. */
    method HandleCloseTag(remaining: string) returns (b: bool)
      requires |nodesStack| == |tagStack| + 1
      modifies this
      ensures b <==> CloseTag(remaining, old(State())).Some?
      ensures State() == if b then CloseTag(remaining, old(State())).value else old(State())
    {
      if StartsWith(remaining, "</if>") && tagStack != [] && Last(tagStack).IfFrame? {
        CloseInnermost();
        pos := pos + 5;
        return true;
      } else if StartsWith(remaining, "</foreach>") && tagStack != [] && Last(tagStack).ForeachFrame? {
        CloseInnermost();
        pos := pos + 10;
        return true;
      }
      return false;
    }

    /** Pop the innermost tag and level, trim the body and append the node (shared by both closers). */
    method CloseInnermost()
      requires |nodesStack| == |tagStack| + 1 && tagStack != []
      modifies this
      ensures State() == CloseTop(old(State()))
    {
      var tag := Last(tagStack);
      tagStack := DropLast(tagStack);
      var body := Last(nodesStack);
      nodesStack := DropLast(nodesStack);
      body := TrimTextNodes(body);
      AppendNode(FrameNode(tag, body));
    }

    /** `try_parse_var`. */
    method TryParseVar() returns (b: bool)
      requires Valid() && pos < |template|
      modifies this
      ensures b <==> TryVar(template, old(State())).Some?
      ensures State() == if b then TryVar(template, old(State())).value else old(State())
    {
      var remaining := template[pos..];
      if StartsWith(remaining, "#{") {
        var end := FindChar(remaining, '}');
        if end.Some? {
          var e := end.value;
          assert e >= 2 by { assert remaining[..2][0] == '#' && remaining[..2][1] == '{'; }
          var varName := Trim(remaining[2..e]);
          if varName != [] {
            AppendNode(AstNode.Var(varName));
            pos := pos + e + 1;
            return true;
          }
        }
      }
      return false;
    }

    /** `parse_text`. */
    method ParseText()
      requires Valid() && pos < |template|
      modifies this
      ensures State() == TextStep(template, old(State()))
    {
      var remaining := template[pos..];
      var stop := TextStop(remaining);
      if stop > 0 {
        AppendText(remaining[..stop]);
        pos := pos + stop;
      } else {
        AppendText(remaining[0..1]);
        pos := pos + 1;
      }
    }

    /** `append_node`. */
    method AppendNode(node: AstNode)
      modifies this
      ensures nodesStack == AppendNodeTo(old(nodesStack), node)
      ensures pos == old(pos) && tagStack == old(tagStack)
    {
      if nodesStack != [] {
        nodesStack := DropLast(nodesStack) + [Last(nodesStack) + [node]];
      }
    }

    /** `append_text`. */
    method AppendText(text: string)
      modifies this
      ensures nodesStack == AppendTextTo(old(nodesStack), text)
      ensures pos == old(pos) && tagStack == old(tagStack)
    {
      if nodesStack != [] {
        var nodes := Last(nodesStack);
        if nodes != [] && Last(nodes).Text? {
          nodes := DropLast(nodes) + [Text(Last(nodes).text + text)];
        } else {
          nodes := nodes + [Text(text)];
        }
        nodesStack := DropLast(nodesStack) + [nodes];
      }
    }

    /** `close_remaining_tags`: pop tags until none is left. */
    method CloseRemainingTags()
      requires |nodesStack| == |tagStack| + 1
      modifies this
      ensures State() == CloseAll(old(State()))
    {
      while tagStack != []
        invariant |nodesStack| == |tagStack| + 1
        invariant CloseAll(State()) == CloseAll(old(State()))
        decreases |tagStack|
      {
        CloseInnermost();
      }
    }
  }

  /** `parse_template`: a fresh parser, run. */
  method ParseTemplate(template: string) returns (nodes: seq<AstNode>)
    ensures nodes == TemplateNodes(template)
  {
    var p := new Parser(template);
    nodes := p.Parse();
  }
}
