/**
 * Properties of the template parser: the node lists it builds are well formed, text without
 * special sequences comes out whole, closing tags close only a matching open tag, and the
 * tags still open at the end are closed innermost first.
 */
module TemplateParserProps {
  import opened Wrappers
  import opened Strings
  import opened TemplateAst
  import opened TemplateScan
  import opened TemplateParser

  predicate LevelsWellFormed(levels: seq<seq<AstNode>>) {
    forall i :: 0 <= i < |levels| ==> WellFormedList(levels[i])
  }

  // ------------------------------------------------------------------ well-formedness

  lemma AppendWellFormed(ns: seq<AstNode>, n: AstNode)
    requires WellFormedList(ns) && WellFormedNode(n) && !n.Text?
    ensures WellFormedList(ns + [n])
  {
    var r := ns + [n];
    assert forall i :: 0 <= i < |ns| ==> r[i] == ns[i];
  }

  /** Appending non-empty text keeps a list well formed, whether it merges or not. */
  lemma MergeTextWellFormed(ns: seq<AstNode>, s: string)
    requires WellFormedList(ns) && s != []
    ensures WellFormedList(MergeText(ns, s))
  {
    var r := MergeText(ns, s);
    if ns != [] && Last(ns).Text? {
      assert forall i :: 0 <= i < |ns| - 1 ==> r[i] == ns[i];
      assert |ns| >= 2 ==> !ns[|ns| - 2].Text?;
    } else {
      assert forall i :: 0 <= i < |ns| ==> r[i] == ns[i];
    }
  }

  lemma AppendNodeToWellFormed(levels: seq<seq<AstNode>>, n: AstNode)
    requires LevelsWellFormed(levels) && WellFormedNode(n) && !n.Text?
    ensures LevelsWellFormed(AppendNodeTo(levels, n))
  {
    if levels != [] {
      AppendWellFormed(Last(levels), n);
      var r := AppendNodeTo(levels, n);
      assert forall i :: 0 <= i < |levels| - 1 ==> r[i] == levels[i];
    }
  }

  lemma AppendTextToWellFormed(levels: seq<seq<AstNode>>, s: string)
    requires LevelsWellFormed(levels) && s != []
    ensures LevelsWellFormed(AppendTextTo(levels, s))
  {
    if levels != [] {
      MergeTextWellFormed(Last(levels), s);
      var r := AppendTextTo(levels, s);
      assert forall i :: 0 <= i < |levels| - 1 ==> r[i] == levels[i];
    }
  }

  lemma TrimFirstWellFormed(ns: seq<AstNode>)
    requires WellFormedList(ns)
    ensures WellFormedList(TrimFirst(ns))
  {
    if ns != [] && ns[0].Text? {
      var r := TrimFirst(ns);
      assert forall i :: 1 <= i < |ns| ==> ns[1..][i - 1] == ns[i];
      if r != ns && r != ns[1..] {
        assert forall i :: 1 <= i < |ns| ==> r[i] == ns[i];
      }
    }
  }

  lemma TrimLastWellFormed(ns: seq<AstNode>)
    requires WellFormedList(ns)
    ensures WellFormedList(TrimLast(ns))
  {
    if ns != [] && Last(ns).Text? {
      var r := TrimLast(ns);
      assert forall i :: 0 <= i < |ns| - 1 ==> DropLast(ns)[i] == ns[i];
    }
  }

  /** Trimming a closed body never leaves an empty text node or two adjacent ones. */
  lemma TrimTextNodesWellFormed(ns: seq<AstNode>)
    requires WellFormedList(ns)
    ensures WellFormedList(TrimTextNodes(ns))
  {
    TrimFirstWellFormed(ns);
    TrimLastWellFormed(TrimFirst(ns));
  }

  lemma CloseTopWellFormed(st: PState)
    requires |st.levels| == |st.frames| + 1 && st.frames != []
    requires LevelsWellFormed(st.levels)
    ensures LevelsWellFormed(CloseTop(st).levels)
  {
    TrimTextNodesWellFormed(Last(st.levels));
    var body := TrimTextNodes(Last(st.levels));
    var n := FrameNode(Last(st.frames), body);
    assert WellFormedNode(n);
    var parent := DropLast(st.levels);
    assert forall i :: 0 <= i < |parent| ==> parent[i] == st.levels[i];
    AppendNodeToWellFormed(parent, n);
  }

  lemma TryTagWellFormed(t: string, st: PState)
    requires Shaped(t, st) && st.pos < |t| && LevelsWellFormed(st.levels)
    requires TryTag(t, st).Some?
    ensures LevelsWellFormed(TryTag(t, st).value.levels)
  {
    var rem := t[st.pos..];
    if StartsWith(rem, "</") {
      CloseTopWellFormed(st);
    } else if StartsWith(rem, "<if ") || StartsWith(rem, "<foreach ") {
      var r := TryTag(t, st).value;
      assert r.levels == st.levels + [[]];
      OpenLevelWellFormed(st.levels);
    } else {
      var e := TagEnd(rem).value;
      AppendNodeToWellFormed(st.levels, Include(Attributes(rem[8..e])["refid"]));
    }
  }

  /** Opening a tag adds an empty level, which is well formed. */
  lemma OpenLevelWellFormed(levels: seq<seq<AstNode>>)
    requires LevelsWellFormed(levels)
    ensures LevelsWellFormed(levels + [[]])
  {
    assert forall i :: 0 <= i < |levels| ==> (levels + [[]])[i] == levels[i];
  }

  /** One step of the main loop keeps every open level well formed. */
  lemma StepWellFormed(t: string, st: PState)
    requires Shaped(t, st) && st.pos < |t| && LevelsWellFormed(st.levels)
    ensures LevelsWellFormed(Step(t, st).levels)
  {
    var rem := t[st.pos..];
    if TryTag(t, st).Some? {
      TryTagWellFormed(t, st);
    } else if TryVar(t, st).Some? {
      var e := FindChar(rem, '}').value;
      AppendNodeToWellFormed(st.levels, AstNode.Var(Trim(rem[2..e])));
    } else {
      var stop := TextStop(rem);
      if stop > 0 {
        AppendTextToWellFormed(st.levels, rem[..stop]);
      } else {
        AppendTextToWellFormed(st.levels, rem[..1]);
      }
    }
  }

  lemma {:induction false} RunWellFormed(t: string, st: PState)
    requires Shaped(t, st) && LevelsWellFormed(st.levels)
    ensures LevelsWellFormed(Run(t, st).levels)
    decreases |t| - st.pos
  {
    if st.pos < |t| {
      StepWellFormed(t, st);
      RunWellFormed(t, Step(t, st));
    }
  }

  lemma {:induction false} CloseAllWellFormed(st: PState)
    requires |st.levels| == |st.frames| + 1 && LevelsWellFormed(st.levels)
    ensures LevelsWellFormed(CloseAll(st).levels)
    decreases |st.frames|
  {
    if st.frames != [] {
      CloseTopWellFormed(st);
      CloseAllWellFormed(CloseTop(st));
    }
  }

  /** The parsed template has no empty `Text` node and no two adjacent ones, at any depth. */
  lemma TemplateWellFormed(t: string)
    ensures WellFormedList(TemplateNodes(t))
  {
    RunWellFormed(t, Start);
    CloseAllWellFormed(Run(t, Start));
  }

  // ---------------------------------------------------------------------- plain text

  lemma HeadOfPrefix(s: string, p: string)
    requires StartsWith(s, p) && p != []
    ensures s[0] == p[0]
  {
    assert s[..|p|][0] == s[0];
  }

  /** No tag is recognised where the text does not continue with `<`. */
  lemma NoAngleNoTag(t: string, st: PState)
    requires Shaped(t, st) && st.pos < |t| && t[st.pos] != '<'
    ensures TryTag(t, st).None?
  {
    var rem := t[st.pos..];
    assert rem[0] == t[st.pos];
    if StartsWith(rem, "</") { HeadOfPrefix(rem, "</"); }
    if StartsWith(rem, "<if ") { HeadOfPrefix(rem, "<if "); }
    if StartsWith(rem, "<foreach ") { HeadOfPrefix(rem, "<foreach "); }
    if StartsWith(rem, "<include") { HeadOfPrefix(rem, "<include"); }
  }

  /** No variable is recognised where the text does not continue with `#`. */
  lemma NoHashNoVar(t: string, st: PState)
    requires Shaped(t, st) && st.pos < |t| && t[st.pos] != '#'
    ensures TryVar(t, st).None?
  {
    var rem := t[st.pos..];
    assert rem[0] == t[st.pos];
    if StartsWith(rem, "#{") { HeadOfPrefix(rem, "#{"); }
  }

  /** A text with neither `<` nor `#{`. */
  predicate Plain(s: string) {
    !ContainsChar(s, '<') && !Contains(s, "#{")
  }

  /**
   * The rest of the text holding neither `<` nor `#{` is appended in one piece, merged with a
   * text node before it, and nothing else changes.
   */
  lemma PlainRest(t: string, st: PState)
    requires Shaped(t, st) && st.pos < |t| && Plain(t[st.pos..])
    ensures Run(t, st) == PState(|t|, AppendTextTo(st.levels, t[st.pos..]), st.frames)
  {
    var rem := t[st.pos..];
    assert rem[0] == t[st.pos];
    NoAngleNoTag(t, st);
    assert !OccursAt(rem, "#{", 0);
    assert TextStop(rem) == |rem|;
    assert rem[..|rem|] == rem;
    assert Step(t, st) == PState(|t|, AppendTextTo(st.levels, rem), st.frames);
  }

  /** A template with neither `<` nor `#{` parses to exactly one text node (none if empty). */
  lemma PlainTemplate(t: string)
    requires Plain(t)
    ensures TemplateNodes(t) == if t == [] then [] else [Text(t)]
  {
    if t != [] {
      assert t[0..] == t;
      PlainRest(t, Start);
    }
  }

  // -------------------------------------------------------- fall-backs to text

  /** A `<` that starts no recognised tag becomes the text `"<"`, merged with text before it. */
  lemma UnrecognisedAngle(t: string, st: PState)
    requires Shaped(t, st) && st.pos < |t| && t[st.pos] == '<' && TryTag(t, st).None?
    ensures Step(t, st) == PState(st.pos + 1, AppendTextTo(st.levels, "<"), st.frames)
  {
    var rem := t[st.pos..];
    assert rem[0] == '<';
    NoHashNoVar(t, st);
    assert FindChar(rem, '<') == Some(0);
    assert TextStop(rem) == 0;
    assert rem[..1] == "<";
  }

  /** `#{ name }` with a non-blank name becomes `Var` of the trimmed name and consumes through the first `}`. */
  lemma VarRecognised(t: string, st: PState, e: nat)
    requires Shaped(t, st) && st.pos < |t| && StartsWith(t[st.pos..], "#{")
    requires FindChar(t[st.pos..], '}') == Some(e) && Trim(t[st.pos..][2..e]) != []
    ensures Step(t, st) == PState(st.pos + e + 1, AppendNodeTo(st.levels, AstNode.Var(Trim(t[st.pos..][2..e]))), st.frames)
  {
    HeadOfPrefix(t[st.pos..], "#{");
    NoAngleNoTag(t, st);
  }

  /** `#{` without a `}`, or with a blank name, is not a variable: it yields the text `"#"`. */
  lemma VarFallback(t: string, st: PState)
    requires Shaped(t, st) && st.pos < |t| && StartsWith(t[st.pos..], "#{")
    requires FindChar(t[st.pos..], '}').None? || Trim(t[st.pos..][2..FindChar(t[st.pos..], '}').value]) == []
    ensures Step(t, st) == PState(st.pos + 1, AppendTextTo(st.levels, "#"), st.frames)
  {
    var rem := t[st.pos..];
    HeadOfPrefix(rem, "#{");
    NoAngleNoTag(t, st);
    assert TryVar(t, st).None?;
    assert OccursAt(rem, "#{", 0);
    assert FindSub(rem, "#{") == Some(0);
    assert TextStop(rem) == 0;
    assert rem[..1] == "#";
  }

  // -------------------------------------------------------------- opening tags

  lemma SecondOfPrefix(s: string, p: string)
    requires StartsWith(s, p) && |p| >= 2
    ensures s[1] == p[1]
  {
    assert s[..|p|][1] == s[1];
  }

  /** `<if ` opens a tag exactly when the tag has its `>` and a `test` attribute. */
  lemma IfRecognised(t: string, st: PState)
    requires Shaped(t, st) && st.pos < |t| && StartsWith(t[st.pos..], "<if ")
    ensures var rem := t[st.pos..];
      TryTag(t, st).Some? <==> TagEnd(rem).Some? && "test" in Attributes(rem[4..TagEnd(rem).value])
    ensures var rem := t[st.pos..];
      TryTag(t, st).Some? ==>
        var e := TagEnd(rem).value;
        TryTag(t, st).value == PState(st.pos + e + 1, st.levels + [[]],
                                      st.frames + [IfFrame(ExprOf(Attributes(rem[4..e])["test"]))])
  {
    var rem := t[st.pos..];
    SecondOfPrefix(rem, "<if ");
    assert |rem| >= 2 ==> rem[..2][1] == rem[1];
    if TagEnd(rem).Some? {
      TagEndAfterWord(rem, "<if ", TagEnd(rem).value);
    }
  }

  /**
   * `<foreach ` opens a tag exactly when it has its `>`, an `item` and a `collection`; a
   * missing `open` or `close` is empty and a missing `separator` is a comma.
   */
  lemma ForeachRecognised(t: string, st: PState)
    requires Shaped(t, st) && st.pos < |t| && StartsWith(t[st.pos..], "<foreach ")
    ensures var rem := t[st.pos..];
      TryTag(t, st).Some? <==>
        TagEnd(rem).Some? && "item" in Attributes(rem[9..TagEnd(rem).value])
        && "collection" in Attributes(rem[9..TagEnd(rem).value])
    ensures var rem := t[st.pos..];
      TryTag(t, st).Some? ==>
        var e := TagEnd(rem).value;
        var attrs := Attributes(rem[9..e]);
        var r := TryTag(t, st).value;
        r.pos == st.pos + e + 1 && r.levels == st.levels + [[]] && DropLast(r.frames) == st.frames
        && Last(r.frames) == ForeachFrame(attrs["item"], attrs["collection"],
             if "open" in attrs then attrs["open"] else "",
             if "separator" in attrs then attrs["separator"] else ",",
             if "close" in attrs then attrs["close"] else "")
  {
    var rem := t[st.pos..];
    SecondOfPrefix(rem, "<foreach ");
    assert |rem| >= 2 ==> rem[..2][1] == rem[1];
    assert |rem| >= 4 ==> rem[..4][1] == rem[1];
    if TagEnd(rem).Some? {
      TagEndAfterWord(rem, "<foreach ", TagEnd(rem).value);
    }
  }

  /** `<include` is a tag exactly when it has its `>` and a `refid`; it adds `Include(refid)`. */
  lemma IncludeRecognised(t: string, st: PState)
    requires Shaped(t, st) && st.pos < |t| && StartsWith(t[st.pos..], "<include")
    ensures var rem := t[st.pos..];
      TryTag(t, st).Some? <==> TagEnd(rem).Some? && "refid" in Attributes(rem[8..TagEnd(rem).value])
    ensures var rem := t[st.pos..];
      TryTag(t, st).Some? ==>
        var e := TagEnd(rem).value;
        TryTag(t, st).value == PState(st.pos + e + 1,
          AppendNodeTo(st.levels, Include(Attributes(rem[8..e])["refid"])), st.frames)
  {
    var rem := t[st.pos..];
    SecondOfPrefix(rem, "<include");
    assert rem[..8][2] == rem[2] == 'n';
    assert rem[..2][1] == rem[1];
    assert rem[..4][2] == rem[2];
    assert |rem| >= 9 ==> rem[..9][1] == rem[1];
    if TagEnd(rem).Some? {
      TagEndAfterWord(rem, "<include", TagEnd(rem).value);
    }
  }

  // ------------------------------------------------------------------- closing tags

  lemma StartsWithLonger(s: string, p: string, q: string)
    requires StartsWith(s, p + q)
    ensures StartsWith(s, p)
  {
    assert s[..|p|] == (p + q)[..|p|];
  }

  /** `</if>` closes the innermost tag only if it is an `<if>`; otherwise its `<` is text. */
  lemma CloseIfOnlyMatching(t: string, st: PState)
    requires Shaped(t, st) && st.pos < |t| && StartsWith(t[st.pos..], "</if>")
    ensures st.frames != [] && Last(st.frames).IfFrame? ==>
      Step(t, st) == CloseTop(st).(pos := st.pos + 5)
    ensures !(st.frames != [] && Last(st.frames).IfFrame?) ==>
      Step(t, st) == PState(st.pos + 1, AppendTextTo(st.levels, "<"), st.frames)
  {
    var rem := t[st.pos..];
    StartsWithLonger(rem, "</", "if>");
    HeadOfPrefix(rem, "</if>");
    if !(st.frames != [] && Last(st.frames).IfFrame?) {
      assert rem[..5][2] == rem[2];
      assert |rem| >= 10 ==> rem[..10][2] == rem[2];
      UnrecognisedAngle(t, st);
    }
  }

  /** `</foreach>` closes the innermost tag only if it is a `<foreach>`; otherwise its `<` is text. */
  lemma CloseForeachOnlyMatching(t: string, st: PState)
    requires Shaped(t, st) && st.pos < |t| && StartsWith(t[st.pos..], "</foreach>")
    ensures st.frames != [] && Last(st.frames).ForeachFrame? ==>
      Step(t, st) == CloseTop(st).(pos := st.pos + 10)
    ensures !(st.frames != [] && Last(st.frames).ForeachFrame?) ==>
      Step(t, st) == PState(st.pos + 1, AppendTextTo(st.levels, "<"), st.frames)
  {
    var rem := t[st.pos..];
    StartsWithLonger(rem, "</", "foreach>");
    HeadOfPrefix(rem, "</foreach>");
    if !(st.frames != [] && Last(st.frames).ForeachFrame?) {
      assert rem[..10][2] == rem[2];
      assert rem[..5][2] == rem[2];
      UnrecognisedAngle(t, st);
    }
  }

  // ------------------------------------------------------------------ auto-closing

  /**
   * The root list once every open tag is closed, defined from the outside in: each level
   * gets one more node, the next level's tag with that level's closed contents as its body.
   */
  function Nested(levels: seq<seq<AstNode>>, frames: seq<Frame>): seq<AstNode>
    requires |levels| == |frames| + 1
    decreases |frames|
  {
    if frames == [] then levels[0]
    else levels[0] + [FrameNode(frames[0], TrimTextNodes(Nested(levels[1..], frames[1..])))]
  }

  /** Appending to the innermost level commutes with dropping the outermost one. */
  lemma AppendNodeToTail(levels: seq<seq<AstNode>>, n: AstNode)
    requires |levels| >= 2
    ensures AppendNodeTo(levels, n)[1..] == AppendNodeTo(levels[1..], n)
    ensures AppendNodeTo(levels, n)[0] == levels[0]
  {
    assert DropLast(levels)[1..] == DropLast(levels[1..]);
  }

  /** Closing the innermost tag of a nest with at least two open tags leaves the outermost alone. */
  lemma CloseTopTail(st: PState)
    requires |st.levels| == |st.frames| + 1 && |st.frames| >= 2
    ensures CloseTop(st).levels[1..] == CloseTop(PState(st.pos, st.levels[1..], st.frames[1..])).levels
    ensures CloseTop(st).frames[1..] == CloseTop(PState(st.pos, st.levels[1..], st.frames[1..])).frames
    ensures CloseTop(st).levels[0] == st.levels[0] && CloseTop(st).frames[0] == st.frames[0]
  {
    var inner := PState(st.pos, st.levels[1..], st.frames[1..]);
    assert Last(inner.levels) == Last(st.levels);
    assert Last(inner.frames) == Last(st.frames);
    assert DropLast(inner.levels) == DropLast(st.levels)[1..];
    assert DropLast(inner.frames) == DropLast(st.frames)[1..];
    AppendNodeToTail(DropLast(st.levels), FrameNode(Last(st.frames), TrimTextNodes(Last(st.levels))));
  }

  /** Closing the innermost tag does not change what the nest of open tags amounts to. */
  lemma {:induction false} CloseTopNested(st: PState)
    requires |st.levels| == |st.frames| + 1 && st.frames != []
    ensures Nested(CloseTop(st).levels, CloseTop(st).frames) == Nested(st.levels, st.frames)
    decreases |st.frames|
  {
    var c := CloseTop(st);
    if |st.frames| == 1 {
      assert st.levels[1..] == [Last(st.levels)];
      assert c.levels == [st.levels[0] + [FrameNode(st.frames[0], TrimTextNodes(Last(st.levels)))]];
    } else {
      var inner := PState(st.pos, st.levels[1..], st.frames[1..]);
      CloseTopNested(inner);
      CloseTopTail(st);
    }
  }

  /** `close_remaining_tags` leaves exactly the root, into which the open tags are nested in order. */
  lemma {:induction false} CloseAllNested(st: PState)
    requires |st.levels| == |st.frames| + 1
    ensures CloseAll(st).levels == [Nested(st.levels, st.frames)]
    decreases |st.frames|
  {
    if st.frames != [] {
      CloseTopNested(st);
      CloseAllNested(CloseTop(st));
    }
  }

  // ------------------------------------------------------------------------ trimming

  /** Whitespace without a newline at either end (inline formatting) is kept as it is. */
  lemma TrimKeepsInline(ns: seq<AstNode>)
    requires ns != [] ==> !ns[0].Text? || '\n' !in ns[0].text[..|ns[0].text| - |TrimStart(ns[0].text)|]
    requires ns != [] ==> !Last(ns).Text? || '\n' !in Last(ns).text[|TrimEnd(Last(ns).text)|..]
    ensures TrimTextNodes(ns) == ns
  {
  }

  /** A single text node whose ends carry newlines loses the whitespace at both ends, or vanishes. */
  lemma TrimSingleBlock(s: string)
    requires '\n' in s[..|s| - |TrimStart(s)|]
    requires TrimStart(s) != [] ==> '\n' in TrimStart(s)[|TrimEnd(TrimStart(s))|..]
    ensures TrimTextNodes([Text(s)]) == if Trim(s) == [] then [] else [Text(Trim(s))]
  {
    var ts := TrimStart(s);
    if ts == [] {
      assert TrimFirst([Text(s)]) == [];
    } else {
      assert TrimFirst([Text(s)]) == [Text(ts)];
      assert Last([Text(ts)]) == Text(ts);
    }
  }
}
