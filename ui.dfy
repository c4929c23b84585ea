/**
 * ui.go: the keyboard-driven state of the terminal widgets. `UITable` keeps a scroll offset
 * `top` and a cursor `selected` over the rows its callback returns; `UIPopupInput` keeps the
 * text typed so far. Drawing is not modelled; the rows the callback returns at a call are a
 * parameter of that call.
 */
module Ui {
  import opened Text

  /** `Max(i, j)`. */
  function Max(i: int, j: int): (r: int)
    ensures r >= i && r >= j && (r == i || r == j)
  {
    if i > j then i else j
  }

  /** `Min(i, j)`. */
  function Min(i: int, j: int): (r: int)
    ensures r <= i && r <= j && (r == i || r == j)
  {
    if i < j then i else j
  }

  /** The tcell keys the widgets react to; every other key is `KeyOther`. */
  datatype Key = KeyUp | KeyDown | KeyCtrlU | KeyCtrlD | KeyEnter | KeyEscape | KeyBackspace2 | KeyRune | KeyOther

  /** A tcell event: a key press (with its rune when the key is `KeyRune`) or anything else
      (resize, mouse, ...). */
  datatype Event = EventKey(key: Key, rune: int) | OtherEvent

  /** The scroll offset and the cursor of a table. */
  datatype Cursor = Cursor(top: int, selected: int)

  /** The selected row is one of the h - 2 rows `Render` draws from `top` on. */
  predicate OnScreen(c: Cursor, h: int) {
    0 <= c.top <= c.selected && c.selected - c.top < h - 2
  }

  /** `Up(i)` on the cursor: scroll back when the cursor would leave the top of the view,
      and move the cursor up i rows, not past row 0. */
  function UpMove(c: Cursor, i: int): (r: Cursor)
    ensures i >= 0 ==> r.selected <= c.selected
    ensures c.selected >= 0 ==> r.selected >= 0
    ensures c.selected <= 0 ==> r == Cursor(r.top, c.selected)
  {
    var top := if c.selected - i < c.top && c.top != 0 then Max(c.top - i, 0) else c.top;
    Cursor(top, if c.selected > 0 then Max(c.selected - i, 0) else c.selected)
  }

  /** `Down(i)` over n rows in a view of height h: move the cursor down i rows, not past the
      last row, scrolling when it would reach the bottom of the view. */
  function DownMove(c: Cursor, i: int, n: int, h: int): (r: Cursor)
    ensures c.selected >= n - 1 ==> r == c
    ensures c.selected < n - 1 ==> r.selected <= n - 1
    ensures i >= 0 ==> r.selected >= c.selected
  {
    if c.selected < n - 1 then
      var top := if c.selected - c.top + i >= h - 3 then Min(c.top + i, n - 1) else c.top;
      Cursor(top, Min(c.selected + i, n - 1))
    else c
  }

  /** `Bottom()` over n rows in a view of height h: the cursor on the last row, scrolled so
      that the last row is the bottom of the view. */
  function BottomMove(n: int, h: int): (r: Cursor)
    ensures r.selected == n - 1
    ensures n >= 1 && h >= 3 ==> OnScreen(r, h) && r.selected - r.top == Min(n - 1, h - 3)
  {
    Cursor(if n > h - 2 then n - h + 2 else 0, n - 1)
  }

  /** What a key does to a table. */
  datatype Nav = Up(rows: int) | Down(rows: int) | Top | Bottom | Stay

  /** The key bindings of `UITable.Handle`. */
  function Navigation(e: Event): Nav {
    match e
    case OtherEvent => Stay
    case EventKey(key, r) =>
      match key
      case KeyUp => Up(1)
      case KeyDown => Down(1)
      case KeyCtrlU => Up(20)
      case KeyCtrlD => Down(20)
      case KeyRune =>
        if r == '1' as int then Top
        else if r == 'j' as int then Down(1)
        else if r == 'k' as int then Up(1)
        else if r == 'G' as int then Bottom
        else Stay
      case _ => Stay
  }

  /** The cursor after a navigation over n rows in a view of height h. */
  function Navigate(nav: Nav, c: Cursor, n: int, h: int): Cursor {
    match nav
    case Up(i) => UpMove(c, i)
    case Down(i) => DownMove(c, i, n, h)
    case Top => Cursor(0, 0)
    case Bottom => BottomMove(n, h)
    case Stay => c
  }

  /** Moving up by a non-negative count keeps the selected row on screen. */
  lemma UpKeepsOnScreen(c: Cursor, i: int, h: int)
    requires OnScreen(c, h) && i >= 0
    ensures OnScreen(UpMove(c, i), h)
  {
  }

  /** Moving down by a non-negative count keeps the selected row on screen, whatever the
      number of rows. */
  lemma DownKeepsOnScreen(c: Cursor, i: int, n: int, h: int)
    requires OnScreen(c, h) && i >= 0
    ensures OnScreen(DownMove(c, i, n, h), h)
  {
  }

  /** Every key keeps the selected row on screen, except `G` on a table without rows, which
      leaves the cursor at -1. */
  lemma HandleKeepsOnScreen(e: Event, c: Cursor, n: int, h: int)
    requires OnScreen(c, h)
    ensures Navigation(e) != Bottom || n >= 1 ==> OnScreen(Navigate(Navigation(e), c, n, h), h)
    ensures Navigation(e) == Bottom && n == 0 ==> Navigate(Navigation(e), c, n, h).selected == -1
  {
    match Navigation(e)
    case Up(i) => UpKeepsOnScreen(c, i, h);
    case Down(i) => DownKeepsOnScreen(c, i, n, h);
    case Top =>
    case Bottom =>
    case Stay =>
  }

  /** `UITable`: the navigation state of a scrolling table of height h. */
  class UITable {
    const h: int
    var top: int
    var selected: int

    /** A table as its struct literal creates it: scrolled to the top, cursor on row 0. */
    constructor (h: int)
      ensures this.h == h && top == 0 && selected == 0
    {
      this.h := h;
      top := 0;
      selected := 0;
    }

    /** `Up(i)`: true exactly when the cursor did not move. */
    method Up(i: int) returns (same: bool)
      modifies this
      ensures Cursor(top, selected) == UpMove(Cursor(old(top), old(selected)), i)
      ensures same <==> selected == old(selected)
    {
      var original := selected;
      if selected - i < top && top != 0 {
        top := Max(top - i, 0);
      }
      if selected > 0 {
        selected := Max(selected - i, 0);
      }
      return original == selected;
    }

    /** `Down(i)`, with `rows` what the rows callback returns. */
    method Down(i: int, rows: seq<string>) returns (same: bool)
      modifies this
      ensures Cursor(top, selected) == DownMove(Cursor(old(top), old(selected)), i, |rows|, h)
      ensures same <==> selected == old(selected)
    {
      var original := selected;
      if selected < |rows| - 1 {
        if selected - top + i >= h - 3 {
          top := Min(top + i, |rows| - 1);
        }
        selected := Min(selected + i, |rows| - 1);
      }
      return original == selected;
    }

    /** `Bottom()`, with `rows` what the rows callback returns. */
    method Bottom(rows: seq<string>) returns (same: bool)
      modifies this
      ensures Cursor(top, selected) == BottomMove(|rows|, h)
      ensures same <==> selected == old(selected)
    {
      var original := selected;
      selected := |rows| - 1;
      top := 0;
      if |rows| > h - 2 {
        top := |rows| - h + 2;
      }
      return original == selected;
    }

    /** `Top()`. */
    method Top() returns (same: bool)
      modifies this
      ensures top == 0 && selected == 0
      ensures same <==> old(selected) == 0
    {
      var original := selected;
      selected := 0;
      top := 0;
      return original == selected;
    }

    /** `Handle(e)`: the navigation bound to the key, answering whether the cursor stayed
        where it was; any other event answers true and changes nothing. */
    method Handle(e: Event, rows: seq<string>) returns (same: bool)
      modifies this
      ensures Cursor(top, selected) == Navigate(Navigation(e), Cursor(old(top), old(selected)), |rows|, h)
      ensures same <==> selected == old(selected)
    {
      match e {
        case EventKey(key, r) =>
          match key {
            case KeyUp =>
              same := Up(1);
              return;
            case KeyDown =>
              same := Down(1, rows);
              return;
            case KeyCtrlU =>
              same := Up(20);
              return;
            case KeyCtrlD =>
              same := Down(20, rows);
              return;
            case KeyRune =>
              if r == '1' as int {
                same := Top();
                return;
              } else if r == 'j' as int {
                same := Down(1, rows);
                return;
              } else if r == 'k' as int {
                same := Up(1);
                return;
              } else if r == 'G' as int {
                same := Bottom(rows);
                return;
              }
            case _ =>
          }
        case OtherEvent =>
      }
      return true;
    }
  }

  /** The input buffer after an event: Enter and Escape clear it, Backspace drops its last
      byte, a rune appends its UTF-8 encoding. */
  function Edited(buffer: string, e: Event): (r: string)
    ensures (e.EventKey? && e.key == KeyBackspace2) ==> r == if buffer == [] then [] else buffer[..|buffer| - 1]
    ensures (e.EventKey? && e.key == KeyRune) ==> r == buffer + EncodeRune(e.rune)
    ensures (e.EventKey? && (e.key == KeyEnter || e.key == KeyEscape)) ==> r == ""
  {
    match e
    case EventKey(KeyEnter, _) => ""
    case EventKey(KeyEscape, _) => ""
    case EventKey(KeyBackspace2, _) => if |buffer| - 1 >= 0 then buffer[..|buffer| - 1] else buffer
    case EventKey(KeyRune, r) => buffer + EncodeRune(r)
    case _ => buffer
  }

  /** Backspace right after typing an ASCII character gives back the text before it. */
  lemma BackspaceUndoesAscii(buffer: string, r: int, any: int)
    requires 0 <= r < 0x80
    ensures Edited(Edited(buffer, EventKey(KeyRune, r)), EventKey(KeyBackspace2, any)) == buffer
  {
    assert (buffer + [r as char])[..|buffer|] == buffer;
  }

  /** Backspace removes one byte, not one character: after typing a character that UTF-8
      encodes in several bytes, its leading bytes stay in the buffer. */
  lemma BackspaceLeavesPartialRune(buffer: string, r: int, any: int)
    requires 0x80 <= r && IsScalar(r)
    ensures Edited(Edited(buffer, EventKey(KeyRune, r)), EventKey(KeyBackspace2, any))
            == buffer + EncodeRune(r)[..|EncodeRune(r)| - 1]
    ensures |EncodeRune(r)| >= 2
  {
    var t := buffer + EncodeRune(r);
    assert t[..|t| - 1] == buffer + EncodeRune(r)[..|EncodeRune(r)| - 1];
  }

  /** `UIPopupInput`: the text being typed, whether the popup shows, and the texts it has
      submitted on its result channel. */
  class UIPopupInput {
    var buffer: string
    var visible: bool
    var sent: seq<string>

    /** `Handle(ev)`: Enter submits the buffer, then clears it and hides the popup like
        Escape; Backspace and runes edit the buffer. The answer is always false. */
    method Handle(e: Event) returns (handled: bool)
      modifies this
      ensures !handled
      ensures buffer == Edited(old(buffer), e)
      ensures visible == (if e.EventKey? && (e.key == KeyEnter || e.key == KeyEscape) then false else old(visible))
      ensures sent == (if e.EventKey? && e.key == KeyEnter then old(sent) + [old(buffer)] else old(sent))
    {
      match e {
        case EventKey(key, r) =>
          match key {
            case KeyEnter =>
              sent := sent + [buffer];
              visible := false;
              buffer := "";
            case KeyEscape =>
              visible := false;
              buffer := "";
            case KeyBackspace2 =>
              var last := |buffer| - 1;
              if last >= 0 {
                buffer := buffer[..last];
              }
            case KeyRune =>
              buffer := buffer + EncodeRune(r);
            case _ =>
          }
        case OtherEvent =>
      }
      return false;
    }
  }
}
