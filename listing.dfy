/**
 * The text the dispatchers print for the list string: a header, a line for
 * the exit string and one for the back string when they are enabled, then a
 * line per listed command. Each line is one `println`, so it ends in "\n".
 * `FiCLI` pads every name with blanks up to column `spacing`; the older
 * `FiInputParser` and `InputParser` put a tab between name and description.
 */
module Listing {
  import opened Text

  /** `println("\nAvailable Commands:")`, equally `print("\nAvailable Commands:\n")`. */
  const Header: string := "\nAvailable Commands:\n"

  /** A name and the description printed beside it. */
  datatype Entry = Entry(name: string, description: string)

  /** An entry together with whether the listing shows it (`FiCommand.isVisible`). */
  datatype Item = Item(entry: Entry, visible: bool)

  /** The entries of the visible items, in order; hidden ones are skipped. */
  function VisibleOnly(items: seq<Item>): (es: seq<Entry>)
    ensures |es| <= |items|
  {
    if items == [] then []
    else
      var last := items[|items| - 1];
      VisibleOnly(items[..|items| - 1]) + (if last.visible then [last.entry] else [])
  }

  /** Filtering one more item. */
  lemma VisibleOnlySnoc(items: seq<Item>, i: nat)
    requires i < |items|
    ensures VisibleOnly(items[..i + 1]) ==
              VisibleOnly(items[..i]) + (if items[i].visible then [items[i].entry] else [])
  {
    assert items[..i + 1][..i] == items[..i];
  }

  /**
   * Exactly the visible items are listed: every listed entry is that of a
   * visible item, and the entry of every visible item is listed.
   */
  lemma {:induction false} VisibleOnlyFilter(items: seq<Item>)
    ensures forall e :: e in VisibleOnly(items) ==> exists i :: 0 <= i < |items| && items[i].visible && e == items[i].entry
    ensures forall i :: 0 <= i < |items| && items[i].visible ==> items[i].entry in VisibleOnly(items)
  {
    if items != [] {
      var init := items[..|items| - 1];
      VisibleOnlyFilter(init);
      forall e | e in VisibleOnly(items)
        ensures exists i :: 0 <= i < |items| && items[i].visible && e == items[i].entry
      {
        if e in VisibleOnly(init) {
          var i :| 0 <= i < |init| && init[i].visible && e == init[i].entry;
          assert items[i] == init[i];
        } else {
          assert items[|items| - 1].visible && e == items[|items| - 1].entry;
        }
      }
      forall i | 0 <= i < |items| && items[i].visible
        ensures items[i].entry in VisibleOnly(items)
      {
        if i < |items| - 1 {
          assert items[i] == init[i];
        }
      }
    }
  }

  /** With every item visible, all of them are listed, in order. */
  lemma {:induction false} AllVisibleListed(items: seq<Item>)
    requires forall i :: 0 <= i < |items| ==> items[i].visible
    ensures |VisibleOnly(items)| == |items|
    ensures forall i :: 0 <= i < |items| ==> VisibleOnly(items)[i] == items[i].entry
  {
    if items != [] {
      AllVisibleListed(items[..|items| - 1]);
    }
  }

  /** `name + addSpaces(name) + description`, printed with `println`. */
  function PaddedLine(spacing: int, e: Entry): string
  {
    e.name + Pad(spacing, e.name) + e.description + "\n"
  }

  /** `name + "\t" + description`, printed with `println`. */
  function TabLine(e: Entry): string
  {
    e.name + "\t" + e.description + "\n"
  }

  /** One padded line per entry, in order. */
  function PaddedLines(spacing: int, es: seq<Entry>): (lines: seq<string>)
    ensures |lines| == |es|
  {
    if es == [] then [] else PaddedLines(spacing, es[..|es| - 1]) + [PaddedLine(spacing, es[|es| - 1])]
  }

  /** One tab-separated line per entry, in order. */
  function TabLines(es: seq<Entry>): (lines: seq<string>)
    ensures |lines| == |es|
  {
    if es == [] then [] else TabLines(es[..|es| - 1]) + [TabLine(es[|es| - 1])]
  }

  /** The line of a control string, present only when the control is enabled. */
  function Optional(enabled: bool, line: string): (lines: seq<string>)
  {
    if enabled then [line] else []
  }

  /** `FiCLI.listCommands`, given the entries it lists. */
  function PaddedListing(spacing: int, exitOn: bool, exit: Entry, backOn: bool, back: Entry, es: seq<Entry>): seq<string>
  {
    [Header] + Optional(exitOn, PaddedLine(spacing, exit)) + Optional(backOn, PaddedLine(spacing, back))
    + PaddedLines(spacing, es)
  }

  /** `FiInputParser.listCommands`, given the entries it lists. */
  function TabListing(exitOn: bool, exit: Entry, backOn: bool, back: Entry, es: seq<Entry>): seq<string>
  {
    [Header] + Optional(exitOn, TabLine(exit)) + Optional(backOn, TabLine(back)) + TabLines(es)
  }

  /** `InputParser.listCommands`: no control strings at all. */
  function PlainTabListing(es: seq<Entry>): seq<string>
  {
    [Header] + TabLines(es)
  }

  /** The padded listing written after `w`, in the order the lines are printed. */
  lemma PaddedListingAfter(w: seq<string>, spacing: int, exitOn: bool, exit: Entry, backOn: bool, back: Entry, es: seq<Entry>)
    ensures w + PaddedListing(spacing, exitOn, exit, backOn, back, es) ==
              (w + [Header] + Optional(exitOn, PaddedLine(spacing, exit)) + Optional(backOn, PaddedLine(spacing, back)))
              + PaddedLines(spacing, es)
  {
  }

  /** The tab-separated listing written after `w`, in the order the lines are printed. */
  lemma TabListingAfter(w: seq<string>, exitOn: bool, exit: Entry, backOn: bool, back: Entry, es: seq<Entry>)
    ensures w + TabListing(exitOn, exit, backOn, back, es) ==
              (w + [Header] + Optional(exitOn, TabLine(exit)) + Optional(backOn, TabLine(back))) + TabLines(es)
  {
  }

  /** Line `i` of the command part is the line of entry `i`. */
  lemma {:induction false} PaddedLinesAt(spacing: int, es: seq<Entry>)
    ensures forall i :: 0 <= i < |es| ==> PaddedLines(spacing, es)[i] == PaddedLine(spacing, es[i])
  {
    if es != [] {
      PaddedLinesAt(spacing, es[..|es| - 1]);
    }
  }

  lemma {:induction false} TabLinesAt(es: seq<Entry>)
    ensures forall i :: 0 <= i < |es| ==> TabLines(es)[i] == TabLine(es[i])
  {
    if es != [] {
      TabLinesAt(es[..|es| - 1]);
    }
  }

  /** Listing one more entry adds its line at the end. */
  lemma PaddedLinesSnoc(spacing: int, es: seq<Entry>, e: Entry)
    ensures PaddedLines(spacing, es + [e]) == PaddedLines(spacing, es) + [PaddedLine(spacing, e)]
  {
    assert (es + [e])[..|es|] == es;
  }

  lemma TabLinesSnoc(es: seq<Entry>, e: Entry)
    ensures TabLines(es + [e]) == TabLines(es) + [TabLine(e)]
  {
    assert (es + [e])[..|es|] == es;
  }

  /**
   * The padded listing is the header, the exit line iff exit is enabled, the
   * back line iff back is enabled, then the line of every entry in order.
   */
  lemma PaddedListingShape(spacing: int, exitOn: bool, exit: Entry, backOn: bool, back: Entry, es: seq<Entry>)
    ensures var l := PaddedListing(spacing, exitOn, exit, backOn, back, es);
      var c := (if exitOn then 1 else 0) + (if backOn then 1 else 0);
      |l| == 1 + c + |es|
      && l[0] == Header
      && (exitOn ==> l[1] == PaddedLine(spacing, exit))
      && (backOn ==> l[c] == PaddedLine(spacing, back))
      && forall i :: 0 <= i < |es| ==> l[1 + c + i] == PaddedLine(spacing, es[i])
  {
    PaddedLinesAt(spacing, es);
  }

  /** The same shape for the tab-separated listing. */
  lemma TabListingShape(exitOn: bool, exit: Entry, backOn: bool, back: Entry, es: seq<Entry>)
    ensures var l := TabListing(exitOn, exit, backOn, back, es);
      var c := (if exitOn then 1 else 0) + (if backOn then 1 else 0);
      |l| == 1 + c + |es|
      && l[0] == Header
      && (exitOn ==> l[1] == TabLine(exit))
      && (backOn ==> l[c] == TabLine(back))
      && forall i :: 0 <= i < |es| ==> l[1 + c + i] == TabLine(es[i])
  {
    TabLinesAt(es);
  }

  /**
   * A name no wider than `spacing` is followed by blanks up to column
   * `spacing`, where its description starts: all such lines line up.
   */
  lemma PaddedLineAligned(spacing: int, e: Entry)
    requires |e.name| <= spacing
    ensures var l := PaddedLine(spacing, e);
      |l| == spacing + |e.description| + 1
      && l[..|e.name|] == e.name
      && (forall i :: |e.name| <= i < spacing ==> l[i] == ' ')
      && l[spacing..] == e.description + "\n"
  {
    var l := PaddedLine(spacing, e);
    var p := Pad(spacing, e.name);
    assert |p| == spacing - |e.name|;
    assert l == e.name + p + (e.description + "\n");
    assert forall i :: |e.name| <= i < spacing ==> l[i] == p[i - |e.name|];
  }

  /** A name at least `spacing` wide gets no padding: the description follows it directly. */
  lemma PaddedLineWide(spacing: int, e: Entry)
    requires |e.name| >= spacing
    ensures PaddedLine(spacing, e) == e.name + e.description + "\n"
  {
    assert Pad(spacing, e.name) == "";
  }

  /** The tab line is the name, one tab, and the description. */
  lemma TabLineSplits(e: Entry)
    ensures var l := TabLine(e);
      |l| == |e.name| + |e.description| + 2
      && l[..|e.name|] == e.name && l[|e.name|] == '\t'
      && l[|e.name| + 1..] == e.description + "\n"
  {
    var l := TabLine(e);
    assert l == e.name + ("\t" + (e.description + "\n"));
  }
}
