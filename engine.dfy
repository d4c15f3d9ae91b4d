/**
 * `render_template` (`src/tpl/engine.rs`): fetch the template's nodes from the cache, render
 * them against the parameter value from an empty buffer, and return the SQL and parameters.
 */
module Engine {
  import opened Wrappers
  import opened Values
  import opened Errors
  import opened TemplateAst
  import opened TemplateParser
  import opened RenderContext
  import opened Render
  import opened TemplateParserProps
  import opened RenderProps

  /**
   * The parsed-template cache behind `cache::get_ast`: a name already present returns its
   * stored nodes, otherwise the content is parsed and stored under the name.
   */
  class TemplateCache {
    var entries: map<string, seq<AstNode>>

    constructor ()
      ensures entries == map[]
    {
      entries := map[];
    }

    method GetAst(name: string, content: string) returns (ast: seq<AstNode>)
      modifies this
      ensures old(name in entries) ==> ast == old(entries[name]) && entries == old(entries)
      ensures old(name !in entries) ==> ast == TemplateNodes(content) && entries == old(entries)[name := ast]
    {
      if name in entries {
        ast := entries[name];
      } else {
        ast := ParseTemplate(content);
        entries := entries[name := ast];
      }
    }
  }

  /** The `(sql, params)` pair a render of `ast` against the root `param` produces from an empty buffer. */
  function TemplateOutput(ph: Placeholder, cache: Cache, ast: seq<AstNode>, param: Value, depth: nat)
    : (string, seq<(string, Value)>)
  {
    var b := RenderNodes(ph, cache, ast, Scope(param, []), Buf("", [], 0), depth);
    (b.sql, b.params)
  }

  /**
   * `render_template`: the cached nodes for `name`, a fresh context over `param`, an empty
   * buffer with count 0; the result is always `Ok`.
   */
  method RenderTemplate(cache: TemplateCache, name: string, content: string, param: Value,
                        placeholder: Placeholder, includeDepth: nat)
    returns (r: Result<(string, seq<(string, Value)>), DbError>)
    modifies cache
    ensures name in cache.entries
    ensures old(name in cache.entries) ==> cache.entries == old(cache.entries)
    ensures old(name !in cache.entries) ==> cache.entries == old(cache.entries)[name := TemplateNodes(content)]
    ensures r == Ok(TemplateOutput(placeholder, cache.entries, cache.entries[name], param, includeDepth))
  {
    var ast := cache.GetAst(name, content);
    var buf := new RenderBuffer(placeholder);
    var ctx := new Context(param);
    RenderInto(ast, ctx, buf, cache.entries, includeDepth);
    r := Ok((buf.sql, buf.params));
  }

  /** The placeholders of a whole render are numbered `1..n`, `n` the number of parameters returned. */
  lemma OutputCountsParams(ph: Placeholder, cache: Cache, ast: seq<AstNode>, param: Value, depth: nat)
    ensures RenderNodes(ph, cache, ast, Scope(param, []), Buf("", [], 0), depth).count
         == |TemplateOutput(ph, cache, ast, param, depth).1|
  {
    CountMatchesParams(ph, cache, ast, Scope(param, []), depth);
  }

  /** A template with no `<` and no `#{` renders to itself with no parameters, whatever the value. */
  lemma PlainTemplateOutput(ph: Placeholder, cache: Cache, t: string, param: Value, depth: nat)
    requires Plain(t)
    ensures TemplateOutput(ph, cache, TemplateNodes(t), param, depth) == (t, [])
  {
    PlainTemplate(t);
    if t != [] {
      SingleNode(ph, cache, Text(t), Scope(param, []), Buf("", [], 0), depth);
      assert "" + t == t;
    }
  }
}
