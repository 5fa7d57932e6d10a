/**
 The keyboard diagram: two fixed thirteen-line layouts drawn with box-drawing
 characters, cut into label spans and border spans, each label styled either
 by the keys of one shortcut (`Render`) or by the frame a key belongs to
 (`RenderLegend`). Colours and styles are abstract tags.
 */
module Keyboard {
  import opened Wrappers
  import opened Ascii

  // ---------------------------------------------------------------------------
  // Styles and the legend palette
  // ---------------------------------------------------------------------------

  datatype Color = Yellow | Green | Cyan | Magenta | Red | Blue | LightYellow | LightGreen

  /** `FRAME_COLORS`: the legend palette, one colour per frame, cycling. */
  const FrameColors: seq<Color> := [Yellow, Green, Cyan, Magenta, Red, Blue, LightYellow, LightGreen]

  /** The colour of frame `frameIdx`; the index taken modulo the palette size is always in range. */
  function FrameColor(frameIdx: nat): (c: Color)
    ensures c in FrameColors
    ensures frameIdx < |FrameColors| ==> c == FrameColors[frameIdx]
  {
    FrameColors[frameIdx % |FrameColors|]
  }

  /** Two frames share a colour exactly when their indices agree modulo 8,
      so any eight consecutive frames are told apart. */
  lemma FrameColorCycle(i: nat, j: nat)
    ensures FrameColor(i) == FrameColor(j) <==> i % 8 == j % 8
    ensures FrameColor(i + 8) == FrameColor(i)
  {
    assert forall a, b :: 0 <= a < b < 8 ==> FrameColors[a] != FrameColors[b];
    assert (i + 8) % 8 == i % 8;
  }

  /** `normal_style`, `highlight_style`, `leader_style`, `modifier_style`, and a legend colour. */
  datatype Style = Normal | Highlight | Leader | Modifier | Palette(color: Color)

  datatype Span = Span(text: string, style: Style)

  /** The texts of a line of spans, joined in order. */
  function Flatten(texts: seq<string>): string
  {
    if texts == [] then [] else texts[0] + Flatten(texts[1..])
  }

  /** The texts of a line of spans. */
  function Texts(spans: seq<Span>): seq<string>
  {
    seq(|spans|, i requires 0 <= i < |spans| => spans[i].text)
  }

  // ---------------------------------------------------------------------------
  // The two layouts
  // ---------------------------------------------------------------------------

  /** The layout drawn while Shift is held: upper-case letters and shifted symbols. */
  const ShiftedLayout: seq<string> :=
    [ "┌───┬──┬──┬──┬──┬──┬──┬──┬──┬──┬────┬───┬────┐",
      "│Esc│F1│F2│F3│F4│F5│F6│F7│F8│F9│ F10│F11│ F12│",
      "├───┴┬─┴┬─┴┬─┴┬─┴┬─┴┬──┬─┴┬─┴┬─┴┬──┬┴─┬─┴┬───┤",
      "│ ~  │! │@ │# │$ │% │^ │& │* │( │) │_ │+ │Bsp│",
      "├────┴┬─┴┬─┴┬─┴┬─┴┬─┴┬─┴┬─┴┬─┴┬─┴┬─┴┬─┴┬─┴┬──┤",
      "│Tab  │Q │W │E │R │T │Y │U │I │O │P │{ │} │| │",
      "├─────┴┬─┴┬─┴┬─┴┬─┴┬─┴┬─┴┬─┴┬─┴┬─┴┬─┴┬─┴┬─┴──┤",
      "│Caps  │A │S │D │F │G │H │J │K │L │: │\" │Ent │",
      "├──────┴┬─┴┬─┴┬─┴┬─┴┬─┴┬─┴┬─┴┬─┴┬─┴┬─┴┬─┴────┤",
      "│Shift  │Z │X │C │V │B │N │M │< │> │? │Shift │",
      "├────┬──┴┬─┴─┬┴──┴──┴──┴──┴──┴┬─┴─┬┴──┬───┬──┤",
      "│Ctrl│Sup│Alt│      Space     │Alt│Fn │Mnu│Ct│",
      "└────┴───┴───┴────────────────┴───┴───┴───┴──┘" ]

  /** The layout drawn otherwise. */
  const PlainLayout: seq<string> :=
    [ "┌───┬──┬──┬──┬──┬──┬──┬──┬──┬──┬────┬───┬────┐",
      "│Esc│F1│F2│F3│F4│F5│F6│F7│F8│F9│ F10│F11│ F12│",
      "├───┴┬─┴┬─┴┬─┴┬─┴┬─┴┬──┬─┴┬─┴┬─┴┬──┬┴─┬─┴┬───┤",
      "│ `  │1 │2 │3 │4 │5 │6 │7 │8 │9 │0 │- │= │Bsp│",
      "├────┴┬─┴┬─┴┬─┴┬─┴┬─┴┬─┴┬─┴┬─┴┬─┴┬─┴┬─┴┬─┴┬──┤",
      "│Tab  │q │w │e │r │t │y │u │i │o │p │[ │] │\\ │",
      "├─────┴┬─┴┬─┴┬─┴┬─┴┬─┴┬─┴┬─┴┬─┴┬─┴┬─┴┬─┴┬─┴──┤",
      "│Caps  │a │s │d │f │g │h │j │k │l │; │' │Ent │",
      "├──────┴┬─┴┬─┴┬─┴┬─┴┬─┴┬─┴┬─┴┬─┴┬─┴┬─┴┬─┴────┤",
      "│Shift  │z │x │c │v │b │n │m │, │. │/ │Shift │",
      "├────┬──┴┬─┴─┬┴──┴──┴──┴──┴──┴┬─┴─┬┴──┬───┬──┤",
      "│Ctrl│Sup│Alt│      Space     │Alt│Fn │Mnu│Ct│",
      "└────┴───┴───┴────────────────┴───┴───┴───┴──┘" ]

  /** `get_layout_lines`: the shifted layout shows the upper-case letters and shifted symbols. */
  function LayoutLines(shiftActive: bool): (lines: seq<string>)
    ensures |lines| == 13
    ensures forall i :: 0 <= i < |lines| ==> |lines[i]| == 46
  {
    if shiftActive then ShiftedLayout else PlainLayout
  }

  /** The shifted layout differs from the plain one only in the four glyph rows. */
  lemma LayoutVariants(i: nat)
    requires i < 13
    ensures LayoutLines(true)[i] == LayoutLines(false)[i] <==> i !in {3, 5, 7, 9}
  {
    var s, p := ShiftedLayout, PlainLayout;
    assert LayoutLines(true) == s && LayoutLines(false) == p;
    if i == 3 {
      assert s[3][2] == '~' && p[3][2] == '`';
    } else if i == 5 {
      assert s[5][7] == 'Q' && p[5][7] == 'q';
    } else if i == 7 {
      assert s[7][8] == 'A' && p[7][8] == 'a';
    } else if i == 9 {
      assert s[9][9] == 'Z' && p[9][9] == 'z';
    }
  }

  // ---------------------------------------------------------------------------
  // Cutting a line into spans
  // ---------------------------------------------------------------------------

  /** A character that starts a key label. */
  predicate IsLabelStart(c: char)
  {
    || IsAlphanumeric(c)
    || c == '`' || c == '-' || c == '=' || c == '[' || c == ']' || c == '\\'
    || c == ';' || c == '\'' || c == ',' || c == '.' || c == '/'
  }

  /** A box-drawing character: it ends a label. */
  predicate IsBoxChar(c: char)
  {
    || c == '│' || c == '┌' || c == '┐' || c == '└' || c == '┘' || c == '├'
    || c == '┤' || c == '┬' || c == '┴' || c == '┼' || c == '─'
  }

  /** The position of the first box-drawing character at or after `pos`, or the end of the line. */
  function LabelEnd(line: string, pos: nat): (end: nat)
    requires pos <= |line|
    ensures pos <= end <= |line|
    ensures forall k :: pos <= k < end ==> !IsBoxChar(line[k])
    ensures end == |line| || IsBoxChar(line[end])
    decreases |line| - pos
  {
    if pos == |line| || IsBoxChar(line[pos]) then pos else LabelEnd(line, pos + 1)
  }

  /** What decides the style of a label: a key->style map, or a key->frame map. */
  datatype Styler = KeyStyles(styles: map<string, Style>) | FrameStyles(frameOf: map<string, nat>)

  /** The style of a trimmed label; a label nothing matches keeps the normal style. */
  function LabelStyle(styler: Styler, name: string): Style
  {
    match styler
    case KeyStyles(m) =>
      (match FindLabel(name, m)
       case Some(style) => style
       case None => Normal)
    case FrameStyles(m) =>
      (match FindFrameStyle(name, m)
       case Some(style) => style
       case None => Normal)
  }

  /** Where the span starting at `pos` ends: after its label, or after its single character. */
  function SegmentEnd(line: string, pos: nat): (end: nat)
    requires pos < |line|
    ensures pos < end <= |line|
  {
    if IsLabelStart(line[pos]) then
      assert !IsBoxChar(line[pos]);
      LabelEnd(line, pos)
    else pos + 1
  }

  /**
   The texts of the spans of `line` from position `pos`: a label character
   starts a span that runs to the next box-drawing character; every other
   character is a span of its own.
   */
  function Segments(line: string, pos: nat): seq<string>
    requires pos <= |line|
    decreases |line| - pos
  {
    if pos == |line| then []
    else [line[pos..SegmentEnd(line, pos)]] + Segments(line, SegmentEnd(line, pos))
  }

  /** The style of one span: a label is styled by its trimmed text, anything else is normal. */
  function SpanStyle(styler: Styler, text: string): Style
  {
    if text != [] && IsLabelStart(text[0]) then LabelStyle(styler, Trim(text)) else Normal
  }

  /** Each text with its style. */
  function Styled(texts: seq<string>, styler: Styler): seq<Span>
  {
    seq(|texts|, i requires 0 <= i < |texts| => Span(texts[i], SpanStyle(styler, texts[i])))
  }

  /** The spans of a line: each segment with its style. */
  function LineSpans(line: string, styler: Styler): seq<Span>
  {
    Styled(Segments(line, 0), styler)
  }

  /** Every line of a layout, cut into spans. */
  function RenderedLines(layout: seq<string>, styler: Styler): seq<seq<Span>>
  {
    seq(|layout|, i requires 0 <= i < |layout| => LineSpans(layout[i], styler))
  }

  lemma FlattenCons(text: string, rest: seq<string>)
    ensures Flatten([text] + rest) == text + Flatten(rest)
  {
    assert ([text] + rest)[1..] == rest;
  }

  /** The segments put back together give the line: nothing dropped, nothing repeated, nothing moved. */
  lemma {:induction false} SegmentsConcat(line: string, pos: nat)
    requires pos <= |line|
    ensures Flatten(Segments(line, pos)) == line[pos..]
    decreases |line| - pos
  {
    if pos < |line| {
      var end := SegmentEnd(line, pos);
      SegmentsConcat(line, end);
      FlattenCons(line[pos..end], Segments(line, end));
      assert line[pos..] == line[pos..end] + line[end..];
    }
  }

  /** The spans of a line hold its text, in order, whatever styles they get. */
  lemma LineSpansConcat(line: string, styler: Styler)
    ensures Flatten(Texts(LineSpans(line, styler))) == line
  {
    assert Texts(LineSpans(line, styler)) == Segments(line, 0);
    SegmentsConcat(line, 0);
  }

  /** A well-formed segment: non-empty; a label holds no box-drawing character; anything else is one character. */
  predicate WellFormedSegment(text: string)
  {
    && text != []
    && (IsLabelStart(text[0]) ==> forall k :: 0 <= k < |text| ==> !IsBoxChar(text[k]))
    && (!IsLabelStart(text[0]) ==> |text| == 1)
  }

  /** Every segment is well formed, and a label is followed by a box-drawing character or ends the line. */
  predicate WellFormedSegments(texts: seq<string>)
  {
    && (forall i :: 0 <= i < |texts| ==> WellFormedSegment(texts[i]))
    && (forall i :: 0 <= i < |texts| - 1 && IsLabelStart(texts[i][0]) ==> IsBoxChar(texts[i + 1][0]))
  }

  lemma {:induction false} SegmentsShape(line: string, pos: nat)
    requires pos <= |line|
    ensures WellFormedSegments(Segments(line, pos))
    decreases |line| - pos
  {
    if pos < |line| {
      var end := SegmentEnd(line, pos);
      var texts := Segments(line, pos);
      var rest := Segments(line, end);
      SegmentsShape(line, end);
      assert WellFormedSegment(texts[0]) by {
        assert texts[0] == line[pos..end];
      }
      if rest != [] {
        assert rest[0][0] == line[end];
      }
      assert forall i :: 1 <= i < |texts| ==> texts[i] == rest[i - 1];
    }
  }

  /** A span that is not a label is a single character in the normal style; no span is empty. */
  lemma LineSpansBorders(line: string, styler: Styler)
    ensures forall i :: 0 <= i < |LineSpans(line, styler)| ==>
              var span := LineSpans(line, styler)[i];
              span.text != [] && (!IsLabelStart(span.text[0]) ==> |span.text| == 1 && span.style == Normal)
  {
    SegmentsShape(line, 0);
  }

  /** With nothing to highlight, every span of a line keeps the normal style. */
  lemma LineSpansUnstyled(line: string, styler: Styler)
    requires styler == KeyStyles(map[]) || styler == FrameStyles(map[])
    ensures forall i :: 0 <= i < |LineSpans(line, styler)| ==> LineSpans(line, styler)[i].style == Normal
  {
    forall text: string
      ensures SpanStyle(styler, text) == Normal
    {
      if text != [] && IsLabelStart(text[0]) {
        assert LabelStyle(styler, Trim(text)) == Normal;
      }
    }
  }

  // ---------------------------------------------------------------------------
  // Matching a label against the highlighted keys
  // ---------------------------------------------------------------------------

  /** The abbreviated labels of the layout and the key names they stand for, tried in this order. */
  const Aliases: seq<(string, string)> :=
    [("bsp", "backsp"), ("ent", "enter"), ("ct", "ctrl"), ("mnu", "menu"), ("sup", "super")]

  /** The alias applies: its short form starts the lowercased label and its full form is a known key. */
  predicate AliasApplies<V>(lower: string, m: map<string, V>, alias: (string, string))
  {
    (lower == alias.0 || alias.0 <= lower) && alias.1 in m
  }

  /** `HashMap::get` */
  function Get<V>(m: map<string, V>, key: string): (r: Option<V>)
    ensures r.Some? <==> key in m
    ensures r.Some? ==> r.value == m[key]
  {
    if key in m then Some(m[key]) else None
  }

  /** The alias loop of `find_key_style`: the value of the first alias from `from` on that applies. */
  function AliasLookup<V>(lower: string, m: map<string, V>, from: nat): (r: Option<V>)
    ensures r.None? <==> forall k :: from <= k < |Aliases| ==> !AliasApplies(lower, m, Aliases[k])
    ensures r.Some? ==> exists k :: from <= k < |Aliases| && AliasApplies(lower, m, Aliases[k])
                                  && r.value == m[Aliases[k].1]
                                  && forall j :: from <= j < k ==> !AliasApplies(lower, m, Aliases[j])
    decreases |Aliases| - from
  {
    if from >= |Aliases| then None
    else if AliasApplies(lower, m, Aliases[from]) then Some(m[Aliases[from].1])
    else AliasLookup(lower, m, from + 1)
  }

  /**
   `find_key_style` / the lookup half of `find_frame_style`: a direct match on
   the lowercased label, then the alias table, then a single-character check.
   The last one looks up the same key as the direct match and so never finds
   anything the direct match missed: a direct match wins, otherwise the first
   applicable alias decides, and whatever is found is the value of some key.
   */
  function FindLabel<V>(name: string, m: map<string, V>): (r: Option<V>)
    ensures Lower(name) in m ==> r == Some(m[Lower(name)])
    ensures Lower(name) !in m ==> r == AliasLookup(Lower(name), m, 0)
    ensures r.Some? ==> exists key :: key in m && r == Some(m[key])
  {
    var lower := Lower(name);
    match Get(m, lower)
    case Some(v) => Some(v)
    case None =>
      match AliasLookup(lower, m, 0)
      case Some(v) => Some(v)
      case None => if |lower| == 1 then Get(m, lower) else None
  }

  /** `find_frame_style`: a matched label takes the palette colour of its frame. */
  function FindFrameStyle(name: string, keyToFrame: map<string, nat>): (r: Option<Style>)
    ensures r.None? <==> FindLabel(name, keyToFrame).None?
    ensures Lower(name) in keyToFrame ==> r == Some(Palette(FrameColors[keyToFrame[Lower(name)] % 8]))
    ensures r.Some? ==> exists key :: key in keyToFrame && r == Some(Palette(FrameColor(keyToFrame[key])))
  {
    match FindLabel(name, keyToFrame)
    case Some(frameIdx) => Some(Palette(FrameColor(frameIdx)))
    case None => None
  }

  // ---------------------------------------------------------------------------
  // The highlight map of `render`
  // ---------------------------------------------------------------------------

  /**
   The style a highlighted key asks for: the leader style for Space, the
   modifier style for the four modifier names, the highlight style otherwise,
   whatever the case of the key.
   */
  function KeyStyle(key: string): (s: Style)
    ensures s == Leader <==> Lower(key) == "space"
    ensures s == Modifier <==> Lower(key) in {"ctrl", "alt", "shift", "super"}
    ensures s == Highlight <==> Lower(key) !in {"space", "ctrl", "alt", "shift", "super"}
  {
    var lower := Lower(key);
    assert key == "Space" ==> lower == "space";
    if lower == "space" || key == "Space" then Leader
    else if lower in ["ctrl", "alt", "shift", "super"] then Modifier
    else Highlight
  }

  /** The map `render` builds: each key inserted under its lowercase and its uppercase form, later keys overwriting. */
  function HighlightMap(keys: seq<string>): map<string, Style>
    decreases |keys|
  {
    if keys == [] then map[]
    else
      var key := keys[|keys| - 1];
      var style := KeyStyle(key);
      HighlightMap(keys[..|keys| - 1])[Lower(key) := style][Upper(key) := style]
  }

  /** The index of the last key whose lowercase form is `x`, or -1 when there is none. */
  function LastWithLower(keys: seq<string>, x: string): (r: int)
    ensures -1 <= r < |keys|
    ensures r >= 0 ==> Lower(keys[r]) == x
    ensures forall j :: r < j < |keys| ==> Lower(keys[j]) != x
    decreases |keys|
  {
    if keys == [] then -1
    else if Lower(keys[|keys| - 1]) == x then |keys| - 1
    else LastWithLower(keys[..|keys| - 1], x)
  }

  /**
   Looking up a lowercase name in the highlight map finds the style of the last
   key with that lowercase form, and nothing when there is none: a key given
   twice keeps the later entry's style.
   */
  lemma {:induction false} HighlightMapLookup(keys: seq<string>, x: string)
    requires IsLowered(x)
    ensures x in HighlightMap(keys) <==> LastWithLower(keys, x) >= 0
    ensures x in HighlightMap(keys) ==> HighlightMap(keys)[x] == KeyStyle(keys[LastWithLower(keys, x)])
    decreases |keys|
  {
    if keys != [] {
      var init, key := keys[..|keys| - 1], keys[|keys| - 1];
      HighlightMapLookup(init, x);
      if Upper(key) == x {
        UpperMeetsLowered(key, x);
      }
    }
  }

  /** A shifted layout is drawn when one of the keys is `shift` in any case. */
  predicate ShiftActive(keys: seq<string>)
  {
    exists k :: k in keys && Lower(k) == "shift"
  }

  // ---------------------------------------------------------------------------
  // The frame map of `render_legend`
  // ---------------------------------------------------------------------------

  /** Inserts every key of one frame, lowercased, with the frame's index. */
  function InsertFrame(m: map<string, nat>, keys: seq<string>, frameIdx: nat): map<string, nat>
    decreases |keys|
  {
    if keys == [] then m
    else InsertFrame(m, keys[..|keys| - 1], frameIdx)[Lower(keys[|keys| - 1]) := frameIdx]
  }

  /** The key -> frame-index map `render_legend` builds, frame after frame. */
  function FrameMap(frames: seq<seq<string>>): map<string, nat>
    decreases |frames|
  {
    if frames == [] then map[]
    else InsertFrame(FrameMap(frames[..|frames| - 1]), frames[|frames| - 1], |frames| - 1)
  }

  /** Some key of `frame` lowercases to `x`. */
  predicate FrameHas(frame: seq<string>, x: string)
  {
    exists k :: k in frame && Lower(k) == x
  }

  lemma {:induction false} InsertFrameLookup(m: map<string, nat>, keys: seq<string>, frameIdx: nat, x: string)
    ensures x in InsertFrame(m, keys, frameIdx) <==> x in m || FrameHas(keys, x)
    ensures FrameHas(keys, x) ==> InsertFrame(m, keys, frameIdx)[x] == frameIdx
    ensures !FrameHas(keys, x) && x in m ==> InsertFrame(m, keys, frameIdx)[x] == m[x]
    decreases |keys|
  {
    if keys != [] {
      var init := keys[..|keys| - 1];
      InsertFrameLookup(m, init, frameIdx, x);
      assert forall k :: k in keys ==> k in init || k == keys[|keys| - 1];
      if FrameHas(init, x) {
        var k :| k in init && Lower(k) == x;
        assert k in keys;
      }
    }
  }

  /**
   A key name is in the legend map exactly when some frame holds it, and then it
   maps to the index of the last frame that holds it.
   */
  lemma {:induction false} FrameMapLookup(frames: seq<seq<string>>, x: string)
    ensures x in FrameMap(frames) <==> exists i :: 0 <= i < |frames| && FrameHas(frames[i], x)
    ensures x in FrameMap(frames) ==>
              && FrameMap(frames)[x] < |frames|
              && FrameHas(frames[FrameMap(frames)[x]], x)
              && forall j :: FrameMap(frames)[x] < j < |frames| ==> !FrameHas(frames[j], x)
    decreases |frames|
  {
    if frames != [] {
      var n := |frames| - 1;
      var init := frames[..n];
      FrameMapLookup(init, x);
      InsertFrameLookup(FrameMap(init), frames[n], n, x);
      assert forall i :: 0 <= i < n ==> frames[i] == init[i];
    }
  }

  /** A shifted legend is drawn when some frame holds `shift` in any case. */
  predicate LegendShiftActive(frames: seq<seq<string>>)
  {
    exists f :: f in frames && ShiftActive(f)
  }

  // ---------------------------------------------------------------------------
  // The two renderers
  // ---------------------------------------------------------------------------

  /** The walk over one line shared by `render` and `render_legend`. */
  method RenderLine(line: string, styler: Styler) returns (spans: seq<Span>)
    ensures spans == LineSpans(line, styler)
    ensures Flatten(Texts(spans)) == line
  {
    spans := [];
    ghost var texts: seq<string> := [];
    var currentPos := 0;
    while currentPos < |line|
      invariant 0 <= currentPos <= |line|
      invariant texts + Segments(line, currentPos) == Segments(line, 0)
      invariant spans == Styled(texts, styler)
    {
      var span, next := NextSpan(line, currentPos, styler);
      assert (texts + [span.text]) + Segments(line, next) == texts + Segments(line, currentPos);
      StyledSnoc(texts, span.text, styler);
      spans := spans + [span];
      texts := texts + [span.text];
      currentPos := next;
    }
    WalkEnd(line, styler, texts, spans);
  }

  /** One step of the walk: a label up to the next box-drawing character, or a single border character. */
  method NextSpan(line: string, pos: nat, styler: Styler) returns (span: Span, next: nat)
    requires pos < |line|
    ensures pos < next <= |line|
    ensures Segments(line, pos) == [span.text] + Segments(line, next)
    ensures span == Span(span.text, SpanStyle(styler, span.text))
  {
    var c := line[pos];
    if IsLabelStart(c) {
      next := ScanLabel(line, pos);
      var keyStr := line[pos..next];
      assert keyStr[0] == c;
      span := Span(keyStr, LabelStyle(styler, Trim(keyStr)));
    } else {
      span := Span([c], Normal);
      next := pos + 1;
      assert line[pos..next] == [c];
    }
  }

  lemma WalkEnd(line: string, styler: Styler, texts: seq<string>, spans: seq<Span>)
    requires texts + Segments(line, |line|) == Segments(line, 0) && spans == Styled(texts, styler)
    ensures spans == LineSpans(line, styler)
    ensures Flatten(Texts(spans)) == line
  {
    LineSpansConcat(line, styler);
  }

  lemma StyledSnoc(texts: seq<string>, text: string, styler: Styler)
    ensures Styled(texts + [text], styler) == Styled(texts, styler) + [Span(text, SpanStyle(styler, text))]
  {
  }

  /** The inner `while` of the walk: the end of the label that starts at `start`. */
  method ScanLabel(line: string, start: nat) returns (end: nat)
    requires start <= |line|
    ensures end == LabelEnd(line, start)
  {
    end := start;
    while end < |line| && !IsBoxChar(line[end])
      invariant start <= end <= |line|
      invariant forall k :: start <= k < end ==> !IsBoxChar(line[k])
    {
      end := end + 1;
    }
    LabelEndUnique(line, start, end);
  }

  /** The scan of the inner `while` stops exactly where `LabelEnd` says. */
  lemma {:induction false} LabelEndUnique(line: string, pos: nat, end: nat)
    requires pos <= end <= |line|
    requires forall k :: pos <= k < end ==> !IsBoxChar(line[k])
    requires end == |line| || IsBoxChar(line[end])
    ensures end == LabelEnd(line, pos)
    decreases end - pos
  {
    if pos < end {
      LabelEndUnique(line, pos + 1, end);
    }
  }

  /** The `for line in layout` loop of both renderers. */
  method RenderLayout(layout: seq<string>, styler: Styler) returns (lines: seq<seq<Span>>)
    ensures lines == RenderedLines(layout, styler)
    ensures forall i :: 0 <= i < |lines| ==> Flatten(Texts(lines[i])) == layout[i]
  {
    lines := [];
    var i := 0;
    while i < |layout|
      invariant 0 <= i <= |layout|
      invariant lines == RenderedLines(layout[..i], styler)
    {
      var spans := RenderLine(layout[i], styler);
      RenderedLinesSnoc(layout, i, styler);
      lines := lines + [spans];
      i := i + 1;
    }
    assert layout[..i] == layout;
    RenderedLinesText(layout, styler);
  }

  lemma RenderedLinesSnoc(layout: seq<string>, i: nat, styler: Styler)
    requires i < |layout|
    ensures RenderedLines(layout[..i + 1], styler) == RenderedLines(layout[..i], styler) + [LineSpans(layout[i], styler)]
  {
    var l, r := RenderedLines(layout[..i + 1], styler), RenderedLines(layout[..i], styler) + [LineSpans(layout[i], styler)];
    assert |l| == |r|;
    forall j | 0 <= j < |l|
      ensures l[j] == r[j]
    {
      assert layout[..i + 1][j] == layout[j];
    }
  }

  /** Every rendered line holds the text of its layout line. */
  lemma RenderedLinesText(layout: seq<string>, styler: Styler)
    ensures forall i :: 0 <= i < |layout| ==> Flatten(Texts(RenderedLines(layout, styler)[i])) == layout[i]
  {
    forall i | 0 <= i < |layout|
      ensures Flatten(Texts(RenderedLines(layout, styler)[i])) == layout[i]
    {
      LineSpansConcat(layout[i], styler);
    }
  }

  /** The map-building loop of `render`. */
  method BuildHighlightMap(highlightedKeys: seq<string>) returns (highlightMap: map<string, Style>)
    ensures highlightMap == HighlightMap(highlightedKeys)
  {
    highlightMap := map[];
    var i := 0;
    while i < |highlightedKeys|
      invariant 0 <= i <= |highlightedKeys|
      invariant highlightMap == HighlightMap(highlightedKeys[..i])
    {
      var key := highlightedKeys[i];
      var style := KeyStyle(key);
      assert highlightedKeys[..i + 1][..i] == highlightedKeys[..i];
      highlightMap := highlightMap[Lower(key) := style];
      highlightMap := highlightMap[Upper(key) := style];
      i := i + 1;
    }
    assert highlightedKeys[..i] == highlightedKeys;
  }

  /** `render`: the layout for the given keys, each label styled by the key it matches. */
  method Render(highlightedKeys: seq<string>) returns (lines: seq<seq<Span>>)
    ensures lines == RenderedLines(LayoutLines(ShiftActive(highlightedKeys)), KeyStyles(HighlightMap(highlightedKeys)))
    ensures forall i :: 0 <= i < |lines| ==> Flatten(Texts(lines[i])) == LayoutLines(ShiftActive(highlightedKeys))[i]
  {
    var shiftActive := exists k :: k in highlightedKeys && Lower(k) == "shift";
    var layout := LayoutLines(shiftActive);
    var highlightMap := BuildHighlightMap(highlightedKeys);
    lines := RenderLayout(layout, KeyStyles(highlightMap));
  }

  /** The map-building loops of `render_legend`. */
  method BuildFrameMap(frames: seq<seq<string>>) returns (keyToFrame: map<string, nat>)
    ensures keyToFrame == FrameMap(frames)
  {
    keyToFrame := map[];
    var frameIdx := 0;
    while frameIdx < |frames|
      invariant 0 <= frameIdx <= |frames|
      invariant keyToFrame == FrameMap(frames[..frameIdx])
    {
      var frameKeys := frames[frameIdx];
      ghost var before := keyToFrame;
      var j := 0;
      while j < |frameKeys|
        invariant 0 <= j <= |frameKeys|
        invariant keyToFrame == InsertFrame(before, frameKeys[..j], frameIdx)
      {
        assert frameKeys[..j + 1][..j] == frameKeys[..j];
        keyToFrame := keyToFrame[Lower(frameKeys[j]) := frameIdx];
        j := j + 1;
      }
      assert frameKeys[..j] == frameKeys;
      assert frames[..frameIdx + 1][..frameIdx] == frames[..frameIdx];
      frameIdx := frameIdx + 1;
    }
    assert frames[..frameIdx] == frames;
  }

  /** `render_legend`: the layout for all frames at once, each label coloured by the last frame holding its key. */
  method RenderLegend(frames: seq<seq<string>>) returns (lines: seq<seq<Span>>)
    ensures lines == RenderedLines(LayoutLines(LegendShiftActive(frames)), FrameStyles(FrameMap(frames)))
    ensures forall i :: 0 <= i < |lines| ==> Flatten(Texts(lines[i])) == LayoutLines(LegendShiftActive(frames))[i]
  {
    var shiftActive := exists f :: f in frames && exists k :: k in f && Lower(k) == "shift";
    var layout := LayoutLines(shiftActive);
    var keyToFrame := BuildFrameMap(frames);
    lines := RenderLayout(layout, FrameStyles(keyToFrame));
  }

  // ---------------------------------------------------------------------------
  // What the renderers promise
  // ---------------------------------------------------------------------------

  /** In `render`, a label whose lowercase form is a highlighted key takes the style of the last such key. */
  lemma RenderDirectMatch(keys: seq<string>, name: string)
    requires LastWithLower(keys, Lower(name)) >= 0
    ensures LabelStyle(KeyStyles(HighlightMap(keys)), name) == KeyStyle(keys[LastWithLower(keys, Lower(name))])
  {
    LowerIsLowered(name);
    HighlightMapLookup(keys, Lower(name));
  }

  /** In `render_legend`, a label whose lowercase form is in some frame takes the colour of the last such frame. */
  lemma LegendDirectMatch(frames: seq<seq<string>>, name: string, i: nat)
    requires i < |frames| && FrameHas(frames[i], Lower(name))
    requires forall j :: i < j < |frames| ==> !FrameHas(frames[j], Lower(name))
    ensures LabelStyle(FrameStyles(FrameMap(frames)), name) == Palette(FrameColor(i))
  {
    FrameMapLast(frames, Lower(name), i);
  }

  /** The frame a key maps to is the last frame holding it. */
  lemma FrameMapLast(frames: seq<seq<string>>, x: string, i: nat)
    requires i < |frames| && FrameHas(frames[i], x)
    requires forall j :: i < j < |frames| ==> !FrameHas(frames[j], x)
    ensures x in FrameMap(frames) && FrameMap(frames)[x] == i
  {
    FrameMapLookup(frames, x);
    var k := FrameMap(frames)[x];
    assert !(k < i) && !(i < k);
  }

  /** With no highlighted keys every span of the diagram is in the normal style. */
  lemma RenderWithoutKeys(lineIdx: nat)
    requires lineIdx < 13
    ensures var lines := RenderedLines(LayoutLines(ShiftActive([])), KeyStyles(HighlightMap([])));
            forall k :: 0 <= k < |lines[lineIdx]| ==> lines[lineIdx][k].style == Normal
  {
    LineSpansUnstyled(LayoutLines(false)[lineIdx], KeyStyles(map[]));
  }

  /** With no frames (or only empty ones) every span of the legend diagram is in the normal style. */
  lemma LegendWithoutKeys(frames: seq<seq<string>>, lineIdx: nat)
    requires forall i :: 0 <= i < |frames| ==> frames[i] == []
    requires lineIdx < 13
    ensures var lines := RenderedLines(LayoutLines(LegendShiftActive(frames)), FrameStyles(FrameMap(frames)));
            forall k :: 0 <= k < |lines[lineIdx]| ==> lines[lineIdx][k].style == Normal
  {
    assert FrameMap(frames) == map[] by {
      forall x | x in FrameMap(frames)
        ensures false
      {
        FrameMapLookup(frames, x);
      }
    }
    assert !LegendShiftActive(frames);
    LineSpansUnstyled(LayoutLines(false)[lineIdx], FrameStyles(map[]));
  }

  /** The layout's `Bsp` label lights up for a highlighted `Backsp` through the alias table. */
  lemma BackspaceAlias()
    ensures FindLabel("Bsp", HighlightMap(["Backsp"])) == Some(Highlight)
  {
    var m := HighlightMap(["Backsp"]);
    assert ["Backsp"][..0] == [];
    assert Lower("Backsp") == "backsp";
    assert Upper("Backsp") == "BACKSP";
    assert KeyStyle("Backsp") == Highlight;
    assert m == map["backsp" := Highlight, "BACKSP" := Highlight];
    assert Lower("Bsp") == "bsp";
    assert AliasApplies("bsp", m, Aliases[0]);
  }

}
