# bbcolor in Dafny

A model of `bbcolor`, a small Python helper that prints text in colour on a
terminal. One `bbcolor` object holds a colour scheme: a switch saying whether
colour is used at all, an optional default foreground and background index of
the 256-colour palette, an optional default style specification, and a
default output stream. `format` wraps a message in an ANSI SGR escape
sequence (Select Graphic Rendition, section 8.3.117 of ECMA-48, with the
xterm `38;5;n` / `48;5;n` 256-colour forms). Each per-call override takes the
place of the stored default. `pr` writes the formatted line to the stream.

Files:

- `wrappers.dfy`: `Option`, which stands for Python's "value or `None`".
- `text.dfy`: the Python string built-ins the class relies on, written out.
  These are `str.split` and `str.join` on a one-character separator, and the
  decimal rendering done by `str(n)` and `'%d' % n`. Each comes with a
  partner: join undoes split, and a decimal reader accepts exactly the
  renderings and reads each back as its number.
- `sgr.dfy`: a reader for the exact escape sequence the class emits. It is
  written separately from the assembler, so the assembler can be proved to
  produce exactly the rendition it was asked for.
- `bbcolor.dfy`: the class and its style parser.
  - `_parse_style` appears twice: as the pure function `ParseStyle`, and as
    the source's own loop, `ParseStyleLoop`, proved equal to it.
  - The escape assembler `Escape` is proved round-trip correct against the reader.
  - The class `BbColor` has the source's fields. Its setters change only the
    fields they name (field-level `modifies` frames).
  - An object invariant `Valid()` ties the cached `styleString` to the stored
    `style`. The constructor establishes it and `SetStyle` re-establishes it.
  - The source's `BadColor` exception is the `Fail(BadColor(message))` outcome
    of `SetFg` and `SetBg`.

On these points the model follows bbcolor.py as written:

- `set_fg` / `set_bg` check the range whether or not colour is enabled.
- With colour off, `format` returns the bare message.
- `pr` with an explicit `out_file` does not write to that stream. The local
  `_file` is only bound when `out_file` is `None`, so the call fails (see
  Findings).
- Per-call colour overrides to `format` are not range-checked. Any integer is
  rendered in decimal, a negative one with a minus sign.

## Model

| member | source | states |
|---|---|---|
| `Text.Split` | bbcolor.py:114 | `style.split(',')`: always at least one part, and no part contains the separator |
| `Text.JoinSplit` | bbcolor.py:114 | joining the parts of a split with the separator gives back the original string |
| `Text.SplitJoin` | bbcolor.py:114 | splitting a join of separator-free parts gives back those parts |
| `Text.PartOfSplit` | bbcolor.py:114 | a run standing between separators or at either end of the string is one of the split's parts |
| `Text.Join` | bbcolor.py:127 | `';'.join(parts)`: the parts with one separator between neighbours. This is a definition with no contract of its own; `Text.JoinSplit`, `Text.SplitJoin` and `Text.JoinAppend` state what it means |
| `Text.JoinAppend` | bbcolor.py:127 | joining two non-empty lists one after the other is joining each and putting one separator between them |
| `Text.NatToDecimal` | bbcolor.py:174 | the digits of a natural number: non-empty, all digits, no leading zero, and the first digit is `0` exactly for 0 |
| `Text.IntToDecimal` | bbcolor.py:174 | `'%d' % n` is spelled canonically: a `-` first exactly when n is negative, then a non-empty run of digits with no leading zero (so never `-0`) |
| `Text.ParseInt` | bbcolor.py:174 | the decimal reader accepts a string exactly when it is spelled canonically (no leading zero, no `-0`, no other character) |
| `Text.ParseIntOfDecimal` | bbcolor.py:174 | the decimal rendering of every integer reads back as that integer |
| `Text.DecimalOfParseInt` | bbcolor.py:174 | the converse: a string that reads as `i` is `'%d' % i` itself, so the rendering of a number is unique |
| `BbColor.StyleCode` | bbcolor.py:118-125 | the code of each style name: `normal` 22, `bold` 1, `underline` 4, `reverse` 7, any other token none. A definition with no contract of its own; `BbColor.ParseStyleNoReset` and `BbColor.UnknownTokenDropped` state its effect |
| `BbColor.CodeOf` | bbcolor.py:118-125 | what one token appends to the list: its code, or nothing. A definition with no contract of its own; `BbColor.CodesOfAppend` states how it composes |
| `BbColor.Scan` | bbcolor.py:113-127 | the token loop as a function on the tokens left and the list so far. A definition with no contract of its own; `BbColor.ScanReset` and `BbColor.ScanNoReset` state what it returns, and `BbColor.BbColor.ParseStyleLoop` is proved to compute it |
| `BbColor.ScanReset` | bbcolor.py:114-117 | once a `reset` token is still to come, the scan ends with exactly `["0"]`, whatever was collected |
| `BbColor.ScanNoReset` | bbcolor.py:114-125 | with no `reset` to come, the scan appends the codes of the remaining recognised tokens, in order, to what was collected |
| `BbColor.ParseStyle` | bbcolor.py:107-127 | no specification gives `22`; every result is made only of the characters of the codes `0 1 4 7 22` and `;` |
| `BbColor.BbColor.ParseStyleLoop` | bbcolor.py:107-127 | the source's token loop (append codes, replace by `0` and stop at `reset`, then `;`-join) returns exactly `ParseStyle` of its argument |
| `BbColor.ParseStyleReset` | bbcolor.py:114-117 | if any comma-separated token is `reset`, the result is exactly `0` |
| `BbColor.ParseStyleResetAnywhere` | bbcolor.py:114-117 | `reset` as a whole token, with any text before and after it, gives `0` |
| `BbColor.ParseStyleNoReset` | bbcolor.py:113-127 | without `reset`, the result is the `;`-join of the codes of the recognised tokens (normal 22, bold 1, underline 4, reverse 7) in token order |
| `BbColor.CodesOfAppend` | bbcolor.py:114-125 | the recognised codes of two token lists, one after the other, are the codes of the first followed by those of the second |
| `BbColor.UnknownTokenDropped` | bbcolor.py:118-125 | a token that is not a style name contributes nothing, wherever it stands |
| `BbColor.ParseStyleAllUnknown` | bbcolor.py:113-127 | when no token is `reset` or a style name, the result is the empty string |
| `BbColor.ParseStyleUnknownToken` | bbcolor.py:113-127 | a single unrecognised token gives the empty string; this includes padded names such as `" bold"` and the empty specification |
| `BbColor.ParseStyleBoldUnderline` | bbcolor.py:113-127 | `bold,underline` gives `1;4` |
| `BbColor.ParseStyleUnderlineBold` | bbcolor.py:113-127 | `underline,bold` gives `4;1`: order is kept |
| `BbColor.ParseStyleResetExample` | bbcolor.py:114-117 | `bold,reset,underline` gives `0` |
| `BbColor.ParseStyleNonsense` | bbcolor.py:113-127 | `nonsense` gives the empty string |
| `Sgr.Decode` | bbcolor.py:181 | the reader of `ESC[fg;bg;style m text ESC[0m` only accepts strings that open with `ESC[` and close with `ESC[0m`, with the text just before the close |
| `BbColor.ColorParam` | bbcolor.py:171-179 | `39` / `49` with no colour, else `38;5;<n>` / `48;5;<n>` with n in decimal. A definition with no contract of its own; `BbColor.DecodeEscape` and `BbColor.EscapeOfDecode` state its meaning |
| `BbColor.Params` | bbcolor.py:171-181 | the foreground, background and style parameters joined by `;`. A definition; `BbColor.ParamsSplit` states how it splits |
| `BbColor.ParamsSplit` | bbcolor.py:171-181 | the parameter string splits on `;` into the foreground's parameters, then the background's, then those of the style |
| `BbColor.Escape` | bbcolor.py:181 | `ESC[<params>m<msg>ESC[0m`. A definition; `BbColor.DecodeEscape` and `BbColor.EscapeOfDecode` together state that it is the one string reading back as its rendition |
| `BbColor.DecodeEscape` | bbcolor.py:170-181 | reading back the assembled sequence gives the foreground (`39` or `38;5;n`), the background (`49` or `48;5;n`), the style parameters and the message that were put in, for any style without `m` |
| `BbColor.EscapeOfDecode` | bbcolor.py:170-181 | the converse of `DecodeEscape`: any string the reader accepts is the assembler's output for what it reads, character for character, and its style holds no `m` |
| `BbColor.DecodeIffEscape` | bbcolor.py:170-181 | for a style without `m`, a string reads back as a rendition if and only if it is the assembler's output for that rendition |
| `BbColor.EscapeExample` | bbcolor.py:170-181 | foreground 160, no background and style `bold` on `X` give exactly ESC, `[38;5;160;49;1mX`, ESC, `[0m`, in that order |
| `BbColor.ColorSession` | bbcolor.py:152-181 | a client run: a valid index is stored and an out-of-range one refused with the old one kept. `Format("X", 160, None, "bold")` on an object with colour on is exactly ESC, `[38;5;160;49;1mX`, ESC, `[0m` |
| `BbColor.RangeMessage` | bbcolor.py:73 | `'%s is not in [0, 255]' % str(v)`. A definition; `BbColor.RangeMessageNamesValue` states what it holds |
| `BbColor.RangeMessageNamesValue` | bbcolor.py:72-73 | the `BadColor` message is the rejected value in decimal followed by ` is not in [0, 255]` |
| `BbColor.Stream.constructor` | bbcolor.py:150 | a stream, reduced to the lines written to it, starts empty |
| `BbColor.PrintSession` | bbcolor.py:139-156 | a client run with colour off: a printed line is the bare message plus a newline, appended to the stored stream, even when a style is asked for |
| `BbColor.ExplicitStreamSession` | bbcolor.py:139-150 | a client run of `pr` with an explicit stream: as written it fails and neither stream receives the line; the corrected `pr` appends the line to the given stream and leaves the stored one alone |
| `BbColor.BbColor.constructor` | bbcolor.py:34-50 | colour is on exactly when the output is a terminal; foreground, background and style are unset; the cached style is `22`; the stream is the class default; the invariant holds |
| `BbColor.BbColor.UseColor` | bbcolor.py:52-59 | sets the colour switch and changes nothing else |
| `BbColor.BbColor.SetFg` | bbcolor.py:61-75 | no argument clears the default foreground; 0..255 stores it; any other value fails with `BadColor("<v> is not in [0, 255]")` and leaves it unchanged; only `fg` can change |
| `BbColor.BbColor.SetBg` | bbcolor.py:77-91 | the same for the default background; only `bg` can change |
| `BbColor.BbColor.SetStyle` | bbcolor.py:93-105 | stores the specification (unset exactly when the argument is), caches `ParseStyle` of it, and keeps the invariant; only `style` and `styleString` can change |
| `BbColor.BbColor.SetFile` | bbcolor.py:129-137 | no argument restores the class-wide default stream, otherwise stores the given one; only `file` can change |
| `BbColor.BbColor.Format` | bbcolor.py:152-181 | colour off gives the message unchanged whatever the overrides. Colour on, for a valid object, gives an SGR sequence that reads back as: each override where given, the stored default where not (a style override parsed), then the message. With `BbColor.EscapeOfDecode` this fixes the exact string: the one that `Escape` builds from those values |
| `BbColor.BbColor.Pr` | bbcolor.py:139-150 | with no stream argument, appends the formatted message plus a newline to the stored stream. With a stream argument it fails with `UnboundFile` and writes nothing |
| `BbColor.BbColor.PrIntended` | bbcolor.py:139-150 | the corrected `pr`: the line goes to the given stream, or to the stored one when none is given. A stored stream different from the given one is untouched |

## Findings

| source | as written | input that shows it | evidently intended | confidence | as-written member | corrected member |
|---|---|---|---|---|---|---|
| bbcolor.py:144-150 | `_file` is bound only when `out_file is None`, so `_file.write` raises `UnboundLocalError` whenever a stream is passed | `pr('hi', out_file=sys.stderr)` | write the line to `out_file` when given. The parameter name says so, as does the comment `# Set defaults, if any` (bbcolor.py:143), which makes the stored stream only the fallback for a missing `out_file`; `set_file` describes `out_file` as a file-like object (bbcolor.py:132) | high (not executed) | `BbColor.BbColor.Pr` (see also `BbColor.ExplicitStreamSession`) | `BbColor.BbColor.PrIntended` |

## Left out

- The terminal probe in `__init__` (bbcolor.py:38) is the constructor parameter `isTty`.
- The `quiet` flag and the diagnostic lines written to standard output in `__init__` (bbcolor.py:35-45) are I/O, and are not modelled.
- A stream is reduced to the list of lines written to it. Real writing, buffering and encoding are I/O.
- The class attribute `bbcolor._file`, which is `sys.stdout` captured at import (bbcolor.py:32), is the constructor parameter `stdout`. It is kept as the constant `classFile`, which `SetFile(None)` restores. Objects share it only if they are given the same stream.
- The runtime `assert type(...) == ...` checks (bbcolor.py:57, 70, 86) are covered by Dafny's types (`bool`, `int`). Passing a value of another type is not modelled.
- `str(style)` in `set_style` (bbcolor.py:103) converts any object to text. The model takes strings only.
- Python's `%s` / `%d` formatting is modelled only for what is used here: concatenating strings, and the decimal rendering of an integer.
- Before the first `set_style` the source object has no `_style_string` attribute at all. The constructor gives it the value `set_style()` is about to set, so that the invariant holds throughout.
- `BbColor.BbColor.Format`: the read-back property is stated only for objects satisfying `Valid()`. Every constructed object does, and every method keeps it. On an object whose cached style held an `m`, the sequence would not read back, and no claim is made.
