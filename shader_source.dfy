/**
 * How `main` turns the user's fragment text into the program it links: the
 * text is placed between a fixed block of uniform declarations and a fixed
 * `main` that calls the user's `mainImage`. The `--shadertoy` flag is parsed
 * but never consulted, so the wrapping happens in both modes.
 */
module ShaderSource {
  import opened Wrappers

  /** The line break and indentation the source's string literal carries between its lines. */
  const LineBreak: string := "\n        "

  const TimeDeclaration: string := "uniform float iGlobalTime;"
  const ResolutionDeclaration: string := "uniform vec3 iResolution;"
  const MouseDeclaration: string := "uniform vec4 iMouse;"
  const MainHeader: string := "void main() {"
  const MainImageCall: string := "mainImage(gl_FragColor, gl_FragCoord.xy);"

  /** The text before the user's shader: iGlobalTime, iResolution and iMouse. */
  const UniformDeclarations: string :=
    TimeDeclaration + LineBreak + ResolutionDeclaration + LineBreak + MouseDeclaration + "\n" + LineBreak

  /** The text after the user's shader: the entry point that calls `mainImage`. */
  const MainShim: string :=
    "\n" + LineBreak + MainHeader + LineBreak + "    " + MainImageCall + LineBreak + "}"

  /** `needle` starts at index `i` of `hay`. */
  predicate OccursAt(needle: string, hay: string, i: int) {
    0 <= i <= |hay| - |needle| && hay[i..i + |needle|] == needle
  }

  /** `needle` occurs as a contiguous part of `hay`. */
  predicate Occurs(needle: string, hay: string) {
    exists i | 0 <= i <= |hay| - |needle| :: OccursAt(needle, hay, i)
  }

  /** Every string occurs in itself. */
  lemma OccursSelf(s: string)
    ensures Occurs(s, s)
  {
    assert OccursAt(s, s, 0);
  }

  /** An occurrence in the left part is an occurrence in the whole. */
  lemma OccursLeft(needle: string, a: string, b: string)
    requires Occurs(needle, a)
    ensures Occurs(needle, a + b)
  {
    var i :| 0 <= i <= |a| - |needle| && OccursAt(needle, a, i);
    assert (a + b)[i..i + |needle|] == a[i..i + |needle|];
    assert OccursAt(needle, a + b, i);
  }

  /** An occurrence in the right part is an occurrence in the whole. */
  lemma OccursRight(needle: string, a: string, b: string)
    requires Occurs(needle, b)
    ensures Occurs(needle, a + b)
  {
    var i :| 0 <= i <= |b| - |needle| && OccursAt(needle, b, i);
    assert (a + b)[|a| + i..|a| + i + |needle|] == b[i..i + |needle|];
    assert OccursAt(needle, a + b, |a| + i);
  }

  /** Whatever occurs in the declarations occurs in every wrapped source. */
  lemma OccursInDeclarations(needle: string, body: string, shadertoy: bool)
    requires Occurs(needle, UniformDeclarations)
    ensures Occurs(needle, WrapFragment(body, shadertoy))
  {
    OccursLeft(needle, UniformDeclarations, body);
    OccursLeft(needle, UniformDeclarations + body, MainShim);
  }

  /** Whatever occurs in the shim occurs in every wrapped source. */
  lemma OccursInShim(needle: string, body: string, shadertoy: bool)
    requires Occurs(needle, MainShim)
    ensures Occurs(needle, WrapFragment(body, shadertoy))
  {
    OccursRight(needle, UniformDeclarations + body, MainShim);
  }

  /** The fragment source handed to the linker; `shadertoy` is the parsed flag. */
  function WrapFragment(body: string, shadertoy: bool): (r: string)
    ensures |r| == |UniformDeclarations| + |body| + |MainShim|
    ensures r[..|UniformDeclarations|] == UniformDeclarations
    ensures r[|UniformDeclarations|..|UniformDeclarations| + |body|] == body
    ensures r[|UniformDeclarations| + |body|..] == MainShim
  {
    UniformDeclarations + body + MainShim
  }

  /** Recovers the user's text from a wrapped source, if it has the wrapper around it. */
  function Unwrap(src: string): (r: Option<string>)
    ensures r.Some? ==> WrapFragment(r.value, false) == src
  {
    if |src| >= |UniformDeclarations| + |MainShim| &&
       src[..|UniformDeclarations|] == UniformDeclarations &&
       src[|src| - |MainShim|..] == MainShim
    then
      var p, q := |UniformDeclarations|, |src| - |MainShim|;
      assert src == src[..p] + src[p..q] + src[q..];
      Some(src[p..q])
    else None
  }

  /** Unwrapping a wrapped shader gives back exactly the user's text. */
  lemma UnwrapWrap(body: string, shadertoy: bool)
    ensures Unwrap(WrapFragment(body, shadertoy)) == Some(body)
  {
    var r := WrapFragment(body, shadertoy);
    assert r[|r| - |MainShim|..] == MainShim;
  }

  /** Whatever unwraps to `body` is the wrapping of `body`. */
  lemma WrapUnwrap(src: string, body: string, shadertoy: bool)
    requires Unwrap(src) == Some(body)
    ensures WrapFragment(body, shadertoy) == src
  {
  }

  /** Different shaders wrap to different sources. */
  lemma WrapInjective(a: string, b: string, shadertoy: bool)
    requires WrapFragment(a, shadertoy) == WrapFragment(b, shadertoy)
    ensures a == b
  {
    UnwrapWrap(a, shadertoy);
    UnwrapWrap(b, shadertoy);
  }

  /** The user's text occurs unmodified in the wrapped source. */
  lemma BodyOccurs(body: string, shadertoy: bool)
    ensures Occurs(body, WrapFragment(body, shadertoy))
  {
    OccursSelf(body);
    OccursRight(body, UniformDeclarations, body);
    OccursLeft(body, UniformDeclarations + body, MainShim);
  }

  /** The flag makes no difference: both modes wrap. */
  lemma WrapIgnoresFlag(body: string)
    ensures WrapFragment(body, true) == WrapFragment(body, false)
  {
  }

  /** The wrapped source declares the three uniforms iGlobalTime, iResolution and iMouse. */
  lemma WrappedDeclaresUniforms(body: string, shadertoy: bool)
    ensures Occurs(TimeDeclaration, WrapFragment(body, shadertoy))
    ensures Occurs(ResolutionDeclaration, WrapFragment(body, shadertoy))
    ensures Occurs(MouseDeclaration, WrapFragment(body, shadertoy))
  {
    var t, n := TimeDeclaration, "\n";
    var r, m := ResolutionDeclaration, MouseDeclaration;
    OccursSelf(t);
    OccursLeft(t, t, LineBreak);
    OccursLeft(t, t + LineBreak, r);
    OccursLeft(t, t + LineBreak + r, LineBreak);
    OccursLeft(t, t + LineBreak + r + LineBreak, m);
    OccursLeft(t, t + LineBreak + r + LineBreak + m, n);
    OccursLeft(t, t + LineBreak + r + LineBreak + m + n, LineBreak);
    OccursInDeclarations(t, body, shadertoy);
    OccursSelf(r);
    OccursRight(r, t + LineBreak, r);
    OccursLeft(r, t + LineBreak + r, LineBreak);
    OccursLeft(r, t + LineBreak + r + LineBreak, m);
    OccursLeft(r, t + LineBreak + r + LineBreak + m, n);
    OccursLeft(r, t + LineBreak + r + LineBreak + m + n, LineBreak);
    OccursInDeclarations(r, body, shadertoy);
    OccursSelf(m);
    OccursRight(m, t + LineBreak + r + LineBreak, m);
    OccursLeft(m, t + LineBreak + r + LineBreak + m, n);
    OccursLeft(m, t + LineBreak + r + LineBreak + m + n, LineBreak);
    OccursInDeclarations(m, body, shadertoy);
  }

  /** The wrapped source ends with a `main` that calls the user's `mainImage`. */
  lemma WrappedDefinesMain(body: string, shadertoy: bool)
    ensures Occurs(MainHeader, WrapFragment(body, shadertoy))
    ensures Occurs(MainImageCall, WrapFragment(body, shadertoy))
  {
    var h, c, n, sp := MainHeader, MainImageCall, "\n", "    ";
    OccursSelf(h);
    OccursRight(h, n + LineBreak, h);
    OccursLeft(h, n + LineBreak + h, LineBreak);
    OccursLeft(h, n + LineBreak + h + LineBreak, sp);
    OccursLeft(h, n + LineBreak + h + LineBreak + sp, c);
    OccursLeft(h, n + LineBreak + h + LineBreak + sp + c, LineBreak);
    OccursLeft(h, n + LineBreak + h + LineBreak + sp + c + LineBreak, "}");
    OccursInShim(h, body, shadertoy);
    OccursSelf(c);
    OccursRight(c, n + LineBreak + h + LineBreak + sp, c);
    OccursLeft(c, n + LineBreak + h + LineBreak + sp + c, LineBreak);
    OccursLeft(c, n + LineBreak + h + LineBreak + sp + c + LineBreak, "}");
    OccursInShim(c, body, shadertoy);
  }
}
