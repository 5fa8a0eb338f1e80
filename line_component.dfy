/** One line of a note: its text or link, its checkbox, and the hover menu
    of controls (blur, copy, collapse). */
module LineComponent {
  import opened Optional
  import opened Strings
  import opened Notes

  /** JavaScript truthiness of an optional string: present and non-empty. */
  predicate TruthyText(s: Option<string>) {
    s.Some? && s.value != ""
  }

  /** `s?.startsWith(p)` is truthy. */
  predicate OptStartsWith(s: Option<string>, p: string) {
    s.Some? && StartsWith(s.value, p)
  }

  /** The test that picks an anchor: `link || line?.startsWith('http://') || line?.startsWith('https://')`. */
  predicate IsLink(key: LineFormat) {
    TruthyText(key.link) || OptStartsWith(key.line, "http://") || OptStartsWith(key.line, "https://")
  }

  /** `link ?? line`: the link unless it is absent, even when it is empty. */
  function Href(key: LineFormat): Option<string>
  {
    if key.link.Some? then key.link else key.line
  }

  /** The element the line text renders as. */
  datatype KeyElement = Anchor(blurred: bool, href: Option<string>, text: Option<string>) | Paragraph(blurred: bool, text: Option<string>)

  function KeyLine(key: LineFormat, blur: bool): KeyElement {
    if IsLink(key) then Anchor(blur, Href(key), key.line) else Paragraph(blur, key.line)
  }

  datatype Control = BlurControl | CopyControl | CollapseControl(collapsed: bool)

  class LineView {
    const key: LineFormat
    const hasChildren: bool
    var showMenu: bool
    var blur: bool

    constructor(key: LineFormat, hasChildren: bool)
      ensures this.key == key && this.hasChildren == hasChildren
      ensures !showMenu && blur == Truthy(key.blur)
    {
      this.key := key;
      this.hasChildren := hasChildren;
      showMenu := false;
      blur := Truthy(key.blur);
    }

    /** The hover menu, given whether the parent has the line collapsed. */
    function Controls(collapsed: bool): (cs: seq<Control>)
      reads this
      ensures !showMenu ==> cs == []
      ensures BlurControl in cs <==> showMenu && Truthy(key.blur)
      ensures CopyControl in cs <==> showMenu
      ensures CollapseControl(collapsed) in cs <==> showMenu && hasChildren
      ensures showMenu && hasChildren ==> cs[|cs| - 1] == CollapseControl(collapsed)
    {
      if !showMenu then []
      else
        (if Truthy(key.blur) then [BlurControl] else [])
        + [CopyControl]
        + (if hasChildren then [CollapseControl(collapsed)] else [])
    }

    /** The checkbox, with its checked state, for checkbox lines only. */
    function Checkbox(): (c: Option<bool>)
      reads this
      ensures c.Some? <==> Truthy(key.checkbox)
      ensures c.Some? ==> (c.value <==> key.check == Some(true))
    {
      if Truthy(key.checkbox) then Some(Truthy(key.check)) else None
    }

    method MouseEnter()
      modifies this
      ensures showMenu && blur == old(blur)
    {
      showMenu := true;
    }

    method MouseLeave()
      modifies this
      ensures !showMenu && blur == old(blur)
    {
      showMenu := false;
    }

    /** A click on the blur control, which is only offered for blurrable lines. */
    method ClickBlur()
      requires BlurControl in Controls(false)
      modifies this
      ensures blur == !old(blur) && showMenu == old(showMenu)
    {
      blur := !blur;
    }
  }

  /** A line with a truthy link renders as an anchor to that link. */
  lemma LinkedLine(key: LineFormat, blur: bool)
    requires TruthyText(key.link)
    ensures KeyLine(key, blur) == Anchor(blur, key.link, key.line)
  {
  }

  /** A line without a link whose text is a web address links to its text. */
  lemma AddressLine(key: LineFormat, blur: bool, url: string)
    requires key.link.None? && key.line == Some("https://" + url)
    ensures KeyLine(key, blur) == Anchor(blur, Some("https://" + url), key.line)
  {
    assert StartsWith("https://" + url, "https://");
  }

  /** An empty link does not by itself make an anchor, but when the text is
      a web address the empty link, not the text, becomes the href. */
  lemma EmptyLinkQuirk(line: string, blur: bool)
    ensures var key := LineFormat(Some(line), Some(""), None, None, None);
      && (!StartsWith(line, "http://") && !StartsWith(line, "https://") ==> KeyLine(key, blur) == Paragraph(blur, Some(line)))
      && (StartsWith(line, "https://") ==> KeyLine(key, blur) == Anchor(blur, Some(""), Some(line)))
  {
  }

  /** A plain line with no link renders as a paragraph of its text. */
  lemma PlainLine(key: LineFormat, blur: bool)
    requires !TruthyText(key.link)
    requires key.line.Some? && !StartsWith(key.line.value, "http")
    ensures KeyLine(key, blur) == Paragraph(blur, key.line)
  {
  }
}
