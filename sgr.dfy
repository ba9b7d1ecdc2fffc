/**
 * A reader for the one shape of Select Graphic Rendition (SGR) control
 * sequence that the colour helper emits: section 8.3.117 of ECMA-48, with the
 * xterm 256-colour extension `38;5;n` (foreground) and `48;5;n` (background).
 *
 *   ESC [ <foreground> ; <background> ; <style> m <text> ESC [ 0 m
 *
 * where <foreground> is `39` (default colour) or `38;5;n`, <background> is
 * `49` or `48;5;n`, and <style> is whatever parameters remain before the first
 * `m`.  It is written independently of the assembler so that the assembler can
 * be shown to produce exactly the rendition it was asked for.
 */
module Sgr {
  import opened Wrappers
  import opened Text

  /** The ESC control character, written `\033` in the source. */
  const Esc: char := '\U{1B}'

  /** Control Sequence Introducer, ESC `[`. */
  const Csi: string := [Esc, '[']

  /** SGR 0: every rendition attribute back to its default. */
  const ResetAll: string := Csi + "0m"

  /** What a decoded sequence selects: colour indices (None for the default), style parameters, text. */
  datatype Rendition = Rendition(fg: Option<int>, bg: Option<int>, style: string, text: string)

  /** The first position of `c` in `s`, if any. */
  function IndexOf(s: string, c: char): (r: Option<nat>)
    ensures r.Some? ==> r.value < |s| && s[r.value] == c && c !in s[..r.value]
    ensures r.None? ==> c !in s
    decreases |s|
  {
    if |s| == 0 then None
    else if s[0] == c then Some(0)
    else match IndexOf(s[1..], c)
      case None => None
      case Some(k) =>
        assert s[..k + 1] == [s[0]] + s[1..][..k];
        Some(k + 1)
  }

  /**
   * One colour selection at the head of the parameter list `ps`: `default`
   * alone, or `extended`, `5`, index.  Gives the colour and how many
   * parameters it took.
   */
  function DecodeColor(ps: seq<string>, extended: string, default: string): (r: Option<(Option<int>, nat)>)
    ensures r.Some? ==> 1 <= r.value.1 <= |ps|
    ensures r.Some? && r.value.0.None? ==> r.value.1 == 1 && ps[0] == default
    ensures r.Some? && r.value.0.Some? ==>
      r.value.1 == 3 && ps[0] == extended && ps[1] == "5" && ParseInt(ps[2]) == r.value.0
  {
    if |ps| >= 1 && ps[0] == default then Some((None, 1))
    else if |ps| >= 3 && ps[0] == extended && ps[1] == "5" && ParseInt(ps[2]).Some? then
      Some((Some(ParseInt(ps[2]).value), 3))
    else None
  }

  /** The rendition a string of the shape above selects, or None if it has another shape. */
  function Decode(r: string): (d: Option<Rendition>)
    ensures d.Some? ==> |r| >= |Csi| + |d.value.text| + |ResetAll|
    ensures d.Some? ==> r[..|Csi|] == Csi && r[|r| - |ResetAll|..] == ResetAll
    ensures d.Some? ==> r[|r| - |ResetAll| - |d.value.text|..|r| - |ResetAll|] == d.value.text
  {
    if |r| < |Csi| + |ResetAll| || r[..|Csi|] != Csi || r[|r| - |ResetAll|..] != ResetAll then None
    else DecodeBody(r[|Csi|..|r| - |ResetAll|])
  }

  /** What lies between the introducer and the closing reset: parameters, `m`, text. */
  function DecodeBody(body: string): (d: Option<Rendition>)
    ensures d.Some? ==> |d.value.text| < |body| && body[|body| - |d.value.text|..] == d.value.text
  {
    match IndexOf(body, 'm')
    case None => None
    case Some(k) => DecodeParams(Split(body[..k], ';'), body[k + 1..])
  }

  /** The parameter list: a foreground selection, a background selection, and at least one style parameter. */
  function DecodeParams(ps: seq<string>, text: string): (d: Option<Rendition>)
    ensures d.Some? ==> d.value.text == text
  {
    match DecodeColor(ps, "38", "39")
    case None => None
    case Some((fg, n)) =>
      match DecodeColor(ps[n..], "48", "49")
      case None => None
      case Some((bg, n')) =>
        if n + n' < |ps| then Some(Rendition(fg, bg, Join(ps[n + n'..], ';'), text)) else None
  }

  /** Two colour selections followed by style parameters are read as such. */
  lemma DecodeParamsOfColors(ps: seq<string>, text: string, fg: Option<int>, n: nat, bg: Option<int>, n': nat)
    requires DecodeColor(ps, "38", "39") == Some((fg, n))
    requires n <= |ps| && DecodeColor(ps[n..], "48", "49") == Some((bg, n'))
    requires n + n' < |ps|
    ensures DecodeParams(ps, text) == Some(Rendition(fg, bg, Join(ps[n + n'..], ';'), text))
  {
  }

  /** A framed body decodes as the body does. */
  lemma DecodeFramed(body: string)
    ensures Decode(Csi + body + ResetAll) == DecodeBody(body)
  {
    var r := Csi + body + ResetAll;
    assert r[..|Csi|] == Csi;
    assert r[|r| - |ResetAll|..] == ResetAll;
    assert r[|Csi|..|r| - |ResetAll|] == body;
  }

  /** An accepted string is the introducer, a body the body reader accepts, and the closing reset. */
  lemma DecodeUnframed(r: string)
    requires Decode(r).Some?
    ensures r == Csi + r[|Csi|..|r| - |ResetAll|] + ResetAll
    ensures DecodeBody(r[|Csi|..|r| - |ResetAll|]) == Decode(r)
  {
    var body := r[|Csi|..|r| - |ResetAll|];
    assert r == r[..|Csi|] + body + r[|r| - |ResetAll|..];
  }

  /** The parameters end at the first `m`. */
  lemma DecodeBodyAt(params: string, text: string)
    requires 'm' !in params
    ensures DecodeBody(params + "m" + text) == DecodeParams(Split(params, ';'), text)
  {
    var body := params + "m" + text;
    assert body[..|params|] == params && body[|params|] == 'm' && body[|params| + 1..] == text;
  }
}
