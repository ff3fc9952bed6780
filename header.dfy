/**
 * `DrawHeaderAttribute.Draw`: the header text wrapped in rich-text tags for
 * its size, boldness, italics and colour.
 */
module Header {
  import opened Text

  /** The options of a `DrawHeader` attribute. */
  datatype DrawHeader = DrawHeader(header: string, size: int, color: string, bold: bool, italics: bool)

  /** Unity's `[Header(text)]` is drawn as a bold `DrawHeader`. */
  function FromHeaderAttribute(text: string): (h: DrawHeader)
    ensures h.header == text && h.bold && h.size == 0 && h.color == "" && !h.italics
  {
    DrawHeader(text, 0, "", true, false)
  }

  /** The colour as the tag writes it: with a leading '#' added when it has none. */
  function HexColor(color: string): (c: string)
    ensures |c| > 0 && c[0] == '#'
    ensures StartsWith(color, "#") ==> c == color
    ensures !StartsWith(color, "#") ==> c == "#" + color
  {
    if StartsWith(color, "#") then color else "#" + color
  }

  /** `<name=arg>text</name>`, or `<name>text</name>` when there is no argument. */
  function Wrap(name: string, arg: string, text: string): (r: string)
    ensures |r| > |text|
    ensures StartsWith(r, OpenTag(Tag(name, arg)))
  {
    var open := OpenTag(Tag(name, arg));
    assert (open + text + CloseTag(Tag(name, arg)))[..|open|] == open;
    open + text + CloseTag(Tag(name, arg))
  }

  /** The label text, built as the attribute builds it: size, then bold, then italics, then colour. */
  function Label(h: DrawHeader): (r: string)
    ensures h.size <= 0 && !h.bold && !h.italics && h.color == "" ==> r == h.header
    ensures h.color != "" ==> StartsWith(r, OpenTag(Tag("color", HexColor(h.color))))
    ensures |r| >= |h.header|
  {
    var s1 := if h.size > 0 then Wrap("size", IntToString(h.size), h.header) else h.header;
    var s2 := if h.bold then Wrap("b", "", s1) else s1;
    var s3 := if h.italics then Wrap("i", "", s2) else s2;
    if h.color != "" then Wrap("color", HexColor(h.color), s3) else s3
  }

  /** A rich-text tag with its argument ("" for none). */
  datatype Tag = Tag(name: string, arg: string)

  function OpenTag(t: Tag): string {
    "<" + t.name + (if t.arg == "" then "" else "=" + t.arg) + ">"
  }

  function CloseTag(t: Tag): string {
    "</" + t.name + ">"
  }

  /** The tag `t` when `present`, else no tag. */
  function Optional(t: Tag, present: bool): seq<Tag> {
    if present then [t] else []
  }

  /** The tags a header is wrapped in, outermost first. */
  function Tags(h: DrawHeader): (ts: seq<Tag>)
    ensures |ts| <= 4
    ensures (Tag("color", HexColor(h.color)) in ts) <==> h.color != ""
    ensures (Tag("i", "") in ts) <==> h.italics
    ensures (Tag("b", "") in ts) <==> h.bold
    ensures (Tag("size", IntToString(h.size)) in ts) <==> h.size > 0
  {
    Optional(Tag("color", HexColor(h.color)), h.color != "")
    + (Optional(Tag("i", ""), h.italics)
       + (Optional(Tag("b", ""), h.bold)
          + Optional(Tag("size", IntToString(h.size)), h.size > 0)))
  }

  /** The opening tags in order. */
  function Opening(ts: seq<Tag>): string
    decreases |ts|
  {
    if ts == [] then "" else OpenTag(ts[0]) + Opening(ts[1..])
  }

  /** The closing tags in the reverse order. */
  function Closing(ts: seq<Tag>): string
    decreases |ts|
  {
    if ts == [] then "" else Closing(ts[1..]) + CloseTag(ts[0])
  }

  /** Wrapping in `ts` one tag at a time, outermost last. */
  lemma {:induction false} WrapNests(t: Tag, ts: seq<Tag>, text: string)
    ensures Wrap(t.name, t.arg, Opening(ts) + text + Closing(ts)) == Opening([t] + ts) + text + Closing([t] + ts)
  {
    assert ([t] + ts)[1..] == ts;
  }

  /** One optional wrapping step keeps the text properly nested. */
  lemma WrapStep(t: Tag, present: bool, ts: seq<Tag>, text: string, s: string)
    requires s == Opening(ts) + text + Closing(ts)
    ensures (if present then Wrap(t.name, t.arg, s) else s) == Opening(Optional(t, present) + ts) + text + Closing(Optional(t, present) + ts)
  {
    if present {
      WrapNests(t, ts, text);
    } else {
      assert Optional(t, present) + ts == ts;
    }
  }

  /**
   * The label is the header inside properly nested tags: the opening tags
   * outermost first, the closing tags in the reverse order.
   */
  lemma LabelNesting(h: DrawHeader)
    ensures Label(h) == Opening(Tags(h)) + h.header + Closing(Tags(h))
  {
    var sz := Optional(Tag("size", IntToString(h.size)), h.size > 0);
    var b := Optional(Tag("b", ""), h.bold);
    var i := Optional(Tag("i", ""), h.italics);
    var c := Optional(Tag("color", HexColor(h.color)), h.color != "");
    var none: seq<Tag> := [];
    assert Opening(none) == "" && Closing(none) == "";
    WrapStep(Tag("size", IntToString(h.size)), h.size > 0, none, h.header, h.header);
    var s1 := if h.size > 0 then Wrap("size", IntToString(h.size), h.header) else h.header;
    assert sz + none == sz;
    WrapStep(Tag("b", ""), h.bold, sz, h.header, s1);
    var s2 := if h.bold then Wrap("b", "", s1) else s1;
    WrapStep(Tag("i", ""), h.italics, b + sz, h.header, s2);
    var s3 := if h.italics then Wrap("i", "", s2) else s2;
    WrapStep(Tag("color", HexColor(h.color)), h.color != "", i + (b + sz), h.header, s3);
    assert Tags(h) == c + (i + (b + sz));
  }

  /** The text of a Unity `[Header]` is drawn between `<b>` and `</b>`. */
  lemma HeaderAttributeBold(text: string)
    ensures Label(FromHeaderAttribute(text)) == "<b>" + text + "</b>"
  {
  }
}
