/**
 * The `bbcolor` colour scheme: default foreground and background colour
 * indices, a default style, a colour on/off switch and a default output
 * stream, and the formatting of a message into an ANSI SGR escape sequence
 * (section 8.3.117 of ECMA-48, with the xterm `38;5;n` / `48;5;n` 256-colour
 * forms) built from those defaults and per-call overrides.
 */
module BbColor {
  import opened Wrappers
  import opened Text
  import Sgr

  // ---------------------------------------------------------------------
  // Style specifications: `_parse_style`

  /** The SGR parameter of one style name; other tokens (including `reset`) have none. */
  function StyleCode(token: string): Option<string>
  {
    if token == "normal" then Some("22")
    else if token == "bold" then Some("1")
    else if token == "underline" then Some("4")
    else if token == "reverse" then Some("7")
    else None
  }

  /** The codes a single token contributes to the list: one or none. */
  function CodeOf(token: string): seq<string>
  {
    match StyleCode(token)
    case None => []
    case Some(c) => [c]
  }

  /**
   * Reference reading of a style list ignoring `reset`: the codes of the
   * recognised tokens, in the order the tokens come.
   */
  function CodesOf(tokens: seq<string>): seq<string>
    decreases |tokens|
  {
    if |tokens| == 0 then [] else CodeOf(tokens[0]) + CodesOf(tokens[1..])
  }

  /**
   * The left-to-right scan of `_parse_style`: the list of codes it ends with
   * when it has `acc` so far and `tokens` still to read.  On `reset` the list
   * becomes `["0"]` and the scan stops.
   */
  function Scan(tokens: seq<string>, acc: seq<string>): seq<string>
    decreases |tokens|
  {
    if |tokens| == 0 then acc
    else if tokens[0] == "reset" then ["0"]
    else Scan(tokens[1..], acc + CodeOf(tokens[0]))
  }

  /** The characters an SGR style parameter string is built from. */
  const StyleChars: set<char> := {'0', '1', '2', '4', '7', ';'}

  ghost predicate CodeChars(codes: seq<string>)
  {
    forall i, k :: 0 <= i < |codes| && 0 <= k < |codes[i]| ==> codes[i][k] in StyleChars
  }

  lemma {:induction false} ScanCodeChars(tokens: seq<string>, acc: seq<string>)
    requires CodeChars(acc)
    ensures CodeChars(Scan(tokens, acc))
    decreases |tokens|
  {
    if |tokens| > 0 && tokens[0] != "reset" {
      var next := acc + CodeOf(tokens[0]);
      assert CodeChars(next) by {
        forall i, k | 0 <= i < |next| && 0 <= k < |next[i]| ensures next[i][k] in StyleChars {
          if i >= |acc| {
            assert next[i] in {"22", "1", "4", "7"};
          }
        }
      }
      ScanCodeChars(tokens[1..], next);
    } else if |tokens| > 0 {
      assert Scan(tokens, acc) == ["0"];
    }
  }

  /**
   * `_parse_style(style)`: the SGR style parameters a style specification
   * stands for.  No specification means `normal` (`22`).
   */
  function ParseStyle(style: Option<string>): (r: string)
    ensures style.None? ==> r == "22"
    ensures forall k :: 0 <= k < |r| ==> r[k] in StyleChars
  {
    if style.None? then "22"
    else
      var codes := Scan(Split(style.value, ','), []);
      ScanCodeChars(Split(style.value, ','), []);
      JoinChars(codes, ';', StyleChars);
      Join(codes, ';')
  }

  lemma {:induction false} ScanReset(tokens: seq<string>, acc: seq<string>)
    requires "reset" in tokens
    ensures Scan(tokens, acc) == ["0"]
    decreases |tokens|
  {
    if tokens[0] != "reset" {
      assert "reset" in tokens[1..];
      ScanReset(tokens[1..], acc + CodeOf(tokens[0]));
    }
  }

  lemma {:induction false} ScanNoReset(tokens: seq<string>, acc: seq<string>)
    requires "reset" !in tokens
    ensures Scan(tokens, acc) == acc + CodesOf(tokens)
    decreases |tokens|
  {
    if |tokens| > 0 {
      assert "reset" !in tokens[1..];
      ScanNoReset(tokens[1..], acc + CodeOf(tokens[0]));
    }
  }

  /** A `reset` token anywhere in the list makes the whole style `0`. */
  lemma ParseStyleReset(style: string)
    requires "reset" in Split(style, ',')
    ensures ParseStyle(Some(style)) == "0"
  {
    ScanReset(Split(style, ','), []);
  }

  /**
   * The same, stated on the text: `reset` as a whole token, whatever comes
   * before or after it, gives `0`.
   */
  lemma ParseStyleResetAnywhere(before: string, after: string)
    requires |before| == 0 || before[|before| - 1] == ','
    requires |after| == 0 || after[0] == ','
    ensures ParseStyle(Some(before + "reset" + after)) == "0"
  {
    PartOfSplit(before, "reset", after, ',');
    ParseStyleReset(before + "reset" + after);
  }

  /**
   * Without `reset`, the style is the `;`-join of the codes of the recognised
   * tokens, in the order the tokens come.
   */
  lemma ParseStyleNoReset(style: string)
    requires "reset" !in Split(style, ',')
    ensures ParseStyle(Some(style)) == Join(CodesOf(Split(style, ',')), ';')
  {
    var tokens := Split(style, ',');
    ScanNoReset(tokens, []);
    assert [] + CodesOf(tokens) == CodesOf(tokens);
  }

  /** The reference reading keeps the order of the tokens. */
  lemma {:induction false} CodesOfAppend(a: seq<string>, b: seq<string>)
    ensures CodesOf(a + b) == CodesOf(a) + CodesOf(b)
    decreases |a|
  {
    if |a| > 0 {
      assert (a + b)[0] == a[0];
      assert (a + b)[1..] == a[1..] + b;
      CodesOfAppend(a[1..], b);
      assert CodesOf(a + b) == CodeOf(a[0]) + CodesOf(a[1..] + b);
      assert CodesOf(a) == CodeOf(a[0]) + CodesOf(a[1..]);
    } else {
      assert a + b == b;
    }
  }

  /** A token that is not a style name contributes nothing, wherever it stands. */
  lemma UnknownTokenDropped(before: seq<string>, token: string, after: seq<string>)
    requires StyleCode(token).None?
    ensures CodesOf(before + [token] + after) == CodesOf(before + after)
  {
    CodesOfAppend(before + [token], after);
    CodesOfAppend(before, [token]);
    CodesOfAppend(before, after);
  }

  lemma {:induction false} CodesOfUnknown(tokens: seq<string>)
    requires forall i :: 0 <= i < |tokens| ==> StyleCode(tokens[i]).None?
    ensures CodesOf(tokens) == []
    decreases |tokens|
  {
    if |tokens| > 0 {
      CodesOfUnknown(tokens[1..]);
    }
  }

  /** A specification none of whose tokens is a style name or `reset` yields no parameters. */
  lemma ParseStyleAllUnknown(style: string)
    requires forall i :: 0 <= i < |Split(style, ',')| ==>
      Split(style, ',')[i] != "reset" && StyleCode(Split(style, ',')[i]).None?
    ensures ParseStyle(Some(style)) == ""
  {
    CodesOfUnknown(Split(style, ','));
    ParseStyleNoReset(style);
  }

  // Worked cases.  Each is proved through the lemmas above rather than by
  // evaluating the split character by character.

  /** Two style names keep their order. */
  lemma ParseStyleBoldUnderline()
    ensures ParseStyle(Some("bold,underline")) == "1;4"
  {
    var ts := ["bold", "underline"];
    var s := Join(ts, ',');
    SplitJoin(ts, ',');
    assert "reset" !in ts;
    ParseStyleNoReset(s);
    assert CodesOf(ts) == ["1", "4"];
    assert Join(["1", "4"], ';') == "1;4";
    assert s == "bold,underline";
  }

  /** The same names the other way round give the codes the other way round. */
  lemma ParseStyleUnderlineBold()
    ensures ParseStyle(Some("underline,bold")) == "4;1"
  {
    var ts := ["underline", "bold"];
    var s := Join(ts, ',');
    SplitJoin(ts, ',');
    assert "reset" !in ts;
    ParseStyleNoReset(s);
    assert CodesOf(ts) == ["4", "1"];
    assert Join(["4", "1"], ';') == "4;1";
    assert s == "underline,bold";
  }

  /** `reset` in the middle discards the tokens on both sides. */
  lemma ParseStyleResetExample()
    ensures ParseStyle(Some("bold,reset,underline")) == "0"
  {
    ParseStyleResetAnywhere("bold,", ",underline");
    assert "bold," + "reset" + ",underline" == "bold,reset,underline";
  }

  /** A single token that is neither a style name nor `reset` yields no parameters. */
  lemma ParseStyleUnknownToken(token: string)
    requires ',' !in token && token != "reset" && StyleCode(token).None?
    ensures ParseStyle(Some(token)) == ""
  {
    SplitNoSeparator(token, ',');
    ParseStyleNoReset(token);
  }

  /** An unknown name yields no parameters. */
  lemma ParseStyleNonsense()
    ensures ParseStyle(Some("nonsense")) == ""
  {
    ParseStyleUnknownToken("nonsense");
  }

  lemma ParseStyleBold()
    ensures ParseStyle(Some("bold")) == "1"
  {
    SplitNoSeparator("bold", ',');
    ParseStyleNoReset("bold");
  }

  // ---------------------------------------------------------------------
  // The escape assembler of `format`

  /** A colour parameter: `default` for none, else `extended;5;<index>`. */
  function ColorParam(index: Option<int>, extended: string, default: string): string
  {
    match index
    case None => default
    case Some(v) => extended + ";5;" + IntToDecimal(v)
  }

  /** The parameters of the sequence: foreground, background and style, `;`-separated. */
  function Params(fg: Option<int>, bg: Option<int>, style: string): string
  {
    ColorParam(fg, "38", "39") + ";" + ColorParam(bg, "48", "49") + ";" + style
  }

  /** `'\033[%s;%s;%sm%s\033[0m' % (foreground, background, style, msg)` with the colour parameters built. */
  function Escape(fg: Option<int>, bg: Option<int>, style: string, msg: string): string
  {
    Sgr.Csi + Params(fg, bg, style) + "m" + msg + Sgr.ResetAll
  }

  /** The colour parameter as a list of SGR parameters. */
  function ColorParts(index: Option<int>, extended: string, default: string): seq<string>
  {
    match index
    case None => [default]
    case Some(v) => [extended, "5", IntToDecimal(v)]
  }

  /** A rendered number holds neither the parameter separator nor the final `m`. */
  lemma DecimalPlain(i: int)
    ensures ';' !in IntToDecimal(i) && 'm' !in IntToDecimal(i)
  {
    var d := IntToDecimal(i);
    forall k | 0 <= k < |d| ensures d[k] != ';' && d[k] != 'm' {
      assert d[k] == '-' || IsDigit(d[k]);
    }
  }

  lemma ColorPartsJoin(index: Option<int>, extended: string, default: string)
    requires ';' !in extended && ';' !in default
    ensures |ColorParts(index, extended, default)| >= 1
    ensures forall i :: 0 <= i < |ColorParts(index, extended, default)| ==>
      ';' !in ColorParts(index, extended, default)[i]
    ensures Join(ColorParts(index, extended, default), ';') == ColorParam(index, extended, default)
  {
    if index.Some? {
      var d := IntToDecimal(index.value);
      DecimalPlain(index.value);
      assert ColorParts(index, extended, default) == [extended, "5", d];
      assert Join(["5", d], ';') == "5" + [';'] + d;
      assert ColorParam(index, extended, default) == extended + [';'] + ("5" + [';'] + d);
    }
  }

  /** The parameter string splits into the foreground, background and style parameters. */
  lemma ParamsSplit(fg: Option<int>, bg: Option<int>, style: string)
    ensures Split(Params(fg, bg, style), ';')
      == ColorParts(fg, "38", "39") + ColorParts(bg, "48", "49") + Split(style, ';')
  {
    var fp, bp, sp := ColorParts(fg, "38", "39"), ColorParts(bg, "48", "49"), Split(style, ';');
    ColorPartsJoin(fg, "38", "39");
    ColorPartsJoin(bg, "48", "49");
    JoinSplit(style, ';');
    JoinAppend(fp, bp, ';');
    JoinAppend(fp + bp, sp, ';');
    var ps := fp + bp + sp;
    assert Join(ps, ';') == Params(fg, bg, style);
    forall i | 0 <= i < |ps| ensures ';' !in ps[i] {
      if i < |fp| { assert ps[i] == fp[i]; }
      else if i < |fp| + |bp| { assert ps[i] == bp[i - |fp|]; }
      else { assert ps[i] == sp[i - |fp| - |bp|]; }
    }
    SplitJoin(ps, ';');
  }

  lemma ParamsPlain(fg: Option<int>, bg: Option<int>, style: string)
    requires 'm' !in style
    ensures 'm' !in Params(fg, bg, style)
  {
    if fg.Some? {
      DecimalPlain(fg.value);
    }
    if bg.Some? {
      DecimalPlain(bg.value);
    }
  }

  /** A colour selection at the head of a parameter list is read back. */
  lemma DecodeColorParts(index: Option<int>, extended: string, default: string, rest: seq<string>)
    requires extended != default
    ensures Sgr.DecodeColor(ColorParts(index, extended, default) + rest, extended, default)
      == Some((index, |ColorParts(index, extended, default)|))
  {
    var ps := ColorParts(index, extended, default) + rest;
    if index.Some? {
      ParseIntOfDecimal(index.value);
      assert ps[0] == extended && ps[1] == "5" && ps[2] == IntToDecimal(index.value);
    } else {
      assert ps[0] == default;
    }
  }

  /**
   * The assembler loses nothing: reading its output back as an SGR sequence
   * gives the colours, the style parameters and the message put in, provided
   * the style parameters hold no `m` (which ends the control sequence).
   */
  lemma DecodeEscape(fg: Option<int>, bg: Option<int>, style: string, msg: string)
    requires 'm' !in style
    ensures Sgr.Decode(Escape(fg, bg, style, msg)) == Some(Sgr.Rendition(fg, bg, style, msg))
  {
    var p := Params(fg, bg, style);
    assert Escape(fg, bg, style, msg) == Sgr.Csi + (p + "m" + msg) + Sgr.ResetAll;
    Sgr.DecodeFramed(p + "m" + msg);
    ParamsPlain(fg, bg, style);
    Sgr.DecodeBodyAt(p, msg);
    DecodeParamsOf(fg, bg, style, msg);
  }

  /** The parameters are read back one selection at a time. */
  lemma DecodeParamsOf(fg: Option<int>, bg: Option<int>, style: string, msg: string)
    ensures Sgr.DecodeParams(Split(Params(fg, bg, style), ';'), msg) == Some(Sgr.Rendition(fg, bg, style, msg))
  {
    ParamsSplit(fg, bg, style);
    JoinSplit(style, ';');
    DecodeParts(fg, bg, Split(style, ';'), msg);
  }

  lemma DecodeParts(fg: Option<int>, bg: Option<int>, sp: seq<string>, msg: string)
    requires |sp| >= 1
    ensures Sgr.DecodeParams(ColorParts(fg, "38", "39") + ColorParts(bg, "48", "49") + sp, msg)
      == Some(Sgr.Rendition(fg, bg, Join(sp, ';'), msg))
  {
    var fp, bp := ColorParts(fg, "38", "39"), ColorParts(bg, "48", "49");
    var ps := fp + bp + sp;
    DecodeColorParts(fg, "38", "39", bp + sp);
    assert fp + (bp + sp) == ps;
    DecodeColorParts(bg, "48", "49", sp);
    assert ps[|fp|..] == bp + sp;
    assert ps[|fp| + |bp|..] == sp;
    Sgr.DecodeParamsOfColors(ps, msg, fg, |fp|, bg, |bp|);
  }

  /** A colour selection the reader accepts is exactly the parameters `ColorParts` writes. */
  lemma DecodeColorInverse(ps: seq<string>, extended: string, default: string, index: Option<int>, n: nat)
    requires Sgr.DecodeColor(ps, extended, default) == Some((index, n))
    ensures n <= |ps| && ps[..n] == ColorParts(index, extended, default)
  {
    if index.Some? {
      DecimalOfParseInt(ps[2], index.value);
      assert ps[..3] == [ps[0], ps[1], ps[2]];
    } else {
      assert ps[..1] == [ps[0]];
    }
  }

  /** A parameter list the reader accepts is the `;`-split of the parameters the assembler writes. */
  lemma ParamsOfDecode(ps: seq<string>, text: string, d: Sgr.Rendition)
    requires Sgr.DecodeParams(ps, text) == Some(d)
    ensures Join(ps, ';') == Params(d.fg, d.bg, d.style)
  {
    var (fg, n) := Sgr.DecodeColor(ps, "38", "39").value;
    var (bg, n') := Sgr.DecodeColor(ps[n..], "48", "49").value;
    var fp, bp, rest := ColorParts(fg, "38", "39"), ColorParts(bg, "48", "49"), ps[n + n'..];
    DecodeColorInverse(ps, "38", "39", fg, n);
    DecodeColorInverse(ps[n..], "48", "49", bg, n');
    assert ps[n..][..n'] == ps[n..n + n'];
    assert ps == fp + bp + rest;
    ColorPartsJoin(fg, "38", "39");
    ColorPartsJoin(bg, "48", "49");
    JoinAppend(fp, bp, ';');
    JoinAppend(fp + bp, rest, ';');
  }

  /** The style parameters end a parameter string, so they hold no `m` when it holds none. */
  lemma StyleOfPlainParams(fg: Option<int>, bg: Option<int>, style: string)
    requires 'm' !in Params(fg, bg, style)
    ensures 'm' !in style
  {
    var p := Params(fg, bg, style);
    forall j | 0 <= j < |style| ensures style[j] != 'm' {
      assert style[j] == p[|p| - |style| + j];
    }
  }

  lemma Regroup(a: string, b: string, c: string, d: string, e: string)
    ensures a + (b + c + d) + e == a + b + c + d + e
  {
  }

  /** A body the reader accepts is the assembler's parameters, `m`, and the text. */
  lemma BodyOfDecode(body: string, d: Sgr.Rendition)
    requires Sgr.DecodeBody(body) == Some(d)
    ensures 'm' !in d.style
    ensures body == Params(d.fg, d.bg, d.style) + "m" + d.text
  {
    var k := Sgr.IndexOf(body, 'm').value;
    var params := body[..k];
    assert body == params + "m" + body[k + 1..];
    ParamsOfDecode(Split(params, ';'), body[k + 1..], d);
    JoinSplit(params, ';');
    StyleOfPlainParams(d.fg, d.bg, d.style);
  }

  /**
   * The converse of `DecodeEscape`: the only string the reader accepts as a
   * given rendition is the assembler's output for it, so reading back pins
   * down the exact characters.
   */
  lemma EscapeOfDecode(r: string, d: Sgr.Rendition)
    requires Sgr.Decode(r) == Some(d)
    ensures 'm' !in d.style
    ensures r == Escape(d.fg, d.bg, d.style, d.text)
  {
    var body := r[|Sgr.Csi|..|r| - |Sgr.ResetAll|];
    Sgr.DecodeUnframed(r);
    BodyOfDecode(body, d);
    Regroup(Sgr.Csi, Params(d.fg, d.bg, d.style), "m", d.text, Sgr.ResetAll);
  }

  /** For a style without `m`, a string reads back as a rendition exactly when it is the assembler's output for it. */
  lemma DecodeIffEscape(r: string, fg: Option<int>, bg: Option<int>, style: string, msg: string)
    requires 'm' !in style
    ensures Sgr.Decode(r) == Some(Sgr.Rendition(fg, bg, style, msg)) <==> r == Escape(fg, bg, style, msg)
  {
    DecodeEscape(fg, bg, style, msg);
    if Sgr.Decode(r) == Some(Sgr.Rendition(fg, bg, style, msg)) {
      EscapeOfDecode(r, Sgr.Rendition(fg, bg, style, msg));
    }
  }

  lemma Decimal160()
    ensures IntToDecimal(160) == "160"
  {
    assert NatToDecimal(16) == "16";
  }

  lemma Params160()
    ensures Params(Some(160), None, "1") == "38;5;160;49;1"
  {
    Decimal160();
    assert ColorParam(Some(160), "38", "39") == "38;5;160";
  }

  lemma Escape160()
    ensures Escape(Some(160), None, "1", "X") == "\U{1B}[38;5;160;49;1mX\U{1B}[0m"
  {
    Params160();
    var p := Params(Some(160), None, "1");
    assert Escape(Some(160), None, "1", "X") == Sgr.Csi + p + "m" + "X" + Sgr.ResetAll;
    assert Sgr.Csi == "\U{1B}[";
    assert Sgr.ResetAll == "\U{1B}[0m";
  }

  /** The end-to-end case: foreground 160, default background, bold. */
  lemma EscapeExample()
    ensures Escape(Some(160), None, ParseStyle(Some("bold")), "X")
      == "\U{1B}[38;5;160;49;1mX\U{1B}[0m"
  {
    ParseStyleBold();
    Escape160();
  }

  // ---------------------------------------------------------------------
  // The colour scheme object

  /** A valid colour index of the 256-colour palette. */
  type ColorIndex = v: int | 0 <= v <= 255

  /** The error raised by the source. */
  datatype Error =
    | BadColor(message: string)   // a colour index outside [0, 255]
    | UnboundFile                 // `pr` given an explicit stream: its local `_file` is never bound

  datatype Outcome = Pass | Fail(error: Error)

  const RangeSuffix: string := " is not in [0, 255]"

  /** The message `BadColor` carries. */
  function RangeMessage(v: int): string
  {
    IntToDecimal(v) + RangeSuffix
  }

  /** The message names the rejected value: it reads back from the text before the fixed suffix. */
  lemma RangeMessageNamesValue(v: int)
    ensures |RangeMessage(v)| > |RangeSuffix|
    ensures RangeMessage(v)[|RangeMessage(v)| - |RangeSuffix|..] == RangeSuffix
    ensures ParseInt(RangeMessage(v)[..|RangeMessage(v)| - |RangeSuffix|]) == Some(v)
  {
    var m := RangeMessage(v);
    assert m[..|m| - |RangeSuffix|] == IntToDecimal(v);
    assert m[|m| - |RangeSuffix|..] == RangeSuffix;
    ParseIntOfDecimal(v);
  }

  /** A writable stream, reduced to the lines written to it. */
  class Stream {
    var lines: seq<string>

    constructor ()
      ensures lines == []
    {
      lines := [];
    }
  }

  class BbColor {
    /** The class-wide default stream (`bbcolor._file`, the process's standard output). */
    const classFile: Stream

    var color: bool
    var fg: Option<ColorIndex>
    var bg: Option<ColorIndex>
    var style: Option<string>
    var styleString: string
    var file: Stream

    /** The cached style parameters always agree with the stored style. */
    ghost predicate Valid()
      reads this
    {
      styleString == ParseStyle(style)
    }

    /**
     * `bbcolor()`: colour is on exactly when standard output is a terminal
     * (`isTty`), and every default is reset.
     */
    constructor (isTty: bool, stdout: Stream)
      ensures Valid()
      ensures color == isTty && classFile == stdout && file == stdout
      ensures fg == None && bg == None && style == None && styleString == "22"
    {
      classFile := stdout;
      file := stdout;
      color := isTty;
      style := None;
      styleString := "22";
      new;
      var _ := SetFg(None);
      var _ := SetBg(None);
      SetStyle(None);
      SetFile(None);
    }

    /** `use_color(use)`. */
    method UseColor(use: bool)
      requires Valid()
      modifies this`color
      ensures Valid() && color == use
    {
      color := use;
    }

    /**
     * `set_fg(foreground)`: no argument clears the default foreground; an
     * index in [0, 255] becomes the default; anything else raises `BadColor`
     * and keeps the old default.
     */
    method SetFg(foreground: Option<int>) returns (r: Outcome)
      requires Valid()
      modifies this`fg
      ensures Valid()
      ensures foreground.None? ==> r == Pass && fg == None
      ensures foreground.Some? && 0 <= foreground.value <= 255 ==>
        r == Pass && fg == Some(foreground.value)
      ensures foreground.Some? && !(0 <= foreground.value <= 255) ==>
        r == Fail(BadColor(RangeMessage(foreground.value))) && fg == old(fg)
    {
      if foreground.None? {
        fg := None;
        return Pass;
      }
      var v := foreground.value;
      if !(0 <= v <= 255) {
        return Fail(BadColor(RangeMessage(v)));
      }
      fg := Some(v);
      r := Pass;
    }

    /** `set_bg(background)`: as `set_fg`, on the default background. */
    method SetBg(background: Option<int>) returns (r: Outcome)
      requires Valid()
      modifies this`bg
      ensures Valid()
      ensures background.None? ==> r == Pass && bg == None
      ensures background.Some? && 0 <= background.value <= 255 ==>
        r == Pass && bg == Some(background.value)
      ensures background.Some? && !(0 <= background.value <= 255) ==>
        r == Fail(BadColor(RangeMessage(background.value))) && bg == old(bg)
    {
      if background.None? {
        bg := None;
        return Pass;
      }
      var v := background.value;
      if !(0 <= v <= 255) {
        return Fail(BadColor(RangeMessage(v)));
      }
      bg := Some(v);
      r := Pass;
    }

    /**
     * `set_style(style)`: stores the specification (or none) and caches its
     * parsed parameters.
     */
    method SetStyle(s: Option<string>)
      modifies this`style, this`styleString
      ensures Valid()
      ensures style == s && styleString == ParseStyle(s)
    {
      style := s;
      styleString := ParseStyleLoop(style);
    }

    /**
     * `_parse_style(style)` as the source runs it: a scan over the
     * comma-separated tokens that collects codes and stops at `reset`.
     */
    method ParseStyleLoop(s: Option<string>) returns (r: string)
      ensures r == ParseStyle(s)
    {
      if s.None? {
        return "22";
      }
      var tokens := Split(s.value, ',');
      var lstyle: seq<string> := [];
      var i := 0;
      while i < |tokens|
        invariant 0 <= i <= |tokens|
        invariant Scan(tokens[i..], lstyle) == Scan(tokens, [])
      {
        var t := tokens[i];
        assert tokens[i..][0] == t && tokens[i..][1..] == tokens[i + 1..];
        ghost var before := lstyle;
        if t == "reset" {
          lstyle := ["0"];
          break;
        } else if t == "normal" {
          lstyle := lstyle + ["22"];
        } else if t == "bold" {
          lstyle := lstyle + ["1"];
        } else if t == "underline" {
          lstyle := lstyle + ["4"];
        } else if t == "reverse" {
          lstyle := lstyle + ["7"];
        }
        assert lstyle == before + CodeOf(t);
        i := i + 1;
      }
      r := Join(lstyle, ';');
    }

    /** `set_file(out_file)`: no argument restores the class-wide default stream. */
    method SetFile(outFile: Option<Stream>)
      requires Valid()
      modifies this`file
      ensures Valid()
      ensures file == if outFile.None? then classFile else outFile.value
    {
      if outFile.None? {
        file := classFile;
      } else {
        file := outFile.value;
      }
    }

    /**
     * `format(msg, foreground, background, style)`.  With colour off the
     * message comes back untouched.  With colour on the result is an SGR
     * sequence selecting, for each attribute, the override when one is given
     * and the stored default otherwise (a style override is parsed), around
     * the message, followed by a reset.
     */
    function Format(msg: string, foreground: Option<int>, background: Option<int>, style: Option<string>): (r: string)
      reads this
      ensures !color ==> r == msg
      ensures color && Valid() ==>
        Sgr.Decode(r) == Some(Sgr.Rendition(
          if foreground.None? then fg else foreground,
          if background.None? then bg else background,
          ParseStyle(if style.None? then this.style else style),
          msg))
    {
      if !color then msg
      else
        var fgv: Option<int> := if foreground.None? then fg else foreground;
        var bgv: Option<int> := if background.None? then bg else background;
        var st := if style.None? then styleString else ParseStyle(style);
        var r := Escape(fgv, bgv, st, msg);
        if 'm' !in st then
          DecodeEscape(fgv, bgv, st, msg);
          r
        else r
    }

    /**
     * `pr(msg, ...)` on its default-stream path: one line, the formatted
     * message and a newline, appended to the stored stream.  Given an explicit
     * stream the source fails before writing, and so does the model.
     */
    method Pr(msg: string, foreground: Option<int>, background: Option<int>, style: Option<string>,
              outFile: Option<Stream>) returns (r: Outcome)
      modifies file
      ensures outFile.None? ==>
        r == Pass && file.lines == old(file.lines) + [Format(msg, foreground, background, style) + "\n"]
      ensures outFile.Some? ==> r == Fail(UnboundFile) && file.lines == old(file.lines)
    {
      if outFile.Some? {
        return Fail(UnboundFile);
      }
      var out := Format(msg, foreground, background, style);
      file.lines := file.lines + [out + "\n"];
      r := Pass;
    }

    /**
     * What `pr` evidently means to do: write the formatted line to the given
     * stream, or to the stored one when none is given, and to nothing else.
     */
    method PrIntended(msg: string, foreground: Option<int>, background: Option<int>, style: Option<string>,
                      outFile: Option<Stream>)
      modifies if outFile.Some? then outFile.value else file
      ensures var target := if outFile.Some? then outFile.value else file;
        target.lines == old(target.lines) + [Format(msg, foreground, background, style) + "\n"]
      ensures outFile.Some? && outFile.value != file ==> file.lines == old(file.lines)
    {
      var target := if outFile.Some? then outFile.value else file;
      var out := Format(msg, foreground, background, style);
      target.lines := target.lines + [out + "\n"];
    }
  }

  /** A client session: what the contracts let a caller conclude about colours. */
  method ColorSession(stdout: Stream)
  {
    var c := new BbColor(true, stdout);
    var r := c.SetFg(Some(160));
    assert r == Pass && c.fg == Some(160);
    r := c.SetFg(Some(300));
    assert r.Fail? && c.fg == Some(160);
    var out := c.Format("X", None, None, None);
    assert Sgr.Decode(out) == Some(Sgr.Rendition(Some(160), None, "22", "X"));
    var styled := c.Format("X", Some(160), None, Some("bold"));
    ParseStyleBold();
    EscapeOfDecode(styled, Sgr.Rendition(Some(160), None, "1", "X"));
    Escape160();
    assert styled == "\U{1B}[38;5;160;49;1mX\U{1B}[0m";
    r := c.SetFg(None);
    assert c.fg == None;
  }

  /** A client session: with colour off, a printed line is the bare message. */
  method PrintSession(stdout: Stream)
    modifies stdout
  {
    var c := new BbColor(false, stdout);
    ghost var before := stdout.lines;
    var r := c.Pr("hi", None, None, Some("bold"), None);
    assert r == Pass;
    assert stdout.lines == before + ["hi" + "\n"];
  }

  /** `pr` given an explicit stream, as written: it fails, and neither stream receives the line. */
  method ExplicitStreamSession(stdout: Stream, other: Stream)
    requires stdout != other
    modifies stdout, other
  {
    var c := new BbColor(false, stdout);
    ghost var before, otherBefore := stdout.lines, other.lines;
    var r := c.Pr("hi", None, None, None, Some(other));
    assert r == Fail(UnboundFile);
    assert stdout.lines == before && other.lines == otherBefore;
    c.PrIntended("hi", None, None, None, Some(other));
    assert other.lines == otherBefore + ["hi" + "\n"] && stdout.lines == before;
  }
}
