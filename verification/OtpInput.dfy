/** The segmented one-time-code input: one cell per digit, focus, and `onComplete` calls. */
module OtpInput {
  import opened Text

  /** Cell contents, the focused cell, and the codes `onComplete` has been called with. */
  datatype Otp = Otp(values: seq<string>, focus: nat, completed: seq<string>)

  function Blank(length: nat, completed: seq<string>): Otp {
    Otp(seq(length, _ => ""), 0, completed)
  }

  predicate Filled(values: seq<string>) {
    forall i :: 0 <= i < |values| ==> values[i] != ""
  }

  function NotifyIfComplete(o: Otp): Otp {
    if Filled(o.values) then o.(completed := o.completed + [Join(o.values)]) else o
  }

  function LastOf(s: string): string {
    if s == "" then "" else [s[|s| - 1]]
  }

  function HandleChange(o: Otp, index: nat, rawValue: string): Otp
    requires index < |o.values|
  {
    var digit := LastOf(DigitsOf(rawValue));
    var moved := if digit != "" && index + 1 < |o.values| then index + 1 else o.focus;
    NotifyIfComplete(Otp(o.values[index := digit], moved, o.completed))
  }

  datatype Key = Backspace | ArrowLeft | ArrowRight | OtherKey

  function HandleKeyDown(o: Otp, index: nat, key: Key): Otp
    requires index < |o.values|
  {
    match key
    case Backspace =>
      if o.values[index] == "" && index > 0 then o.(values := o.values[index - 1 := ""], focus := index - 1)
      else o.(values := o.values[index := ""])
    case ArrowLeft => if index > 0 then o.(focus := index - 1) else o
    case ArrowRight => if index + 1 < |o.values| then o.(focus := index + 1) else o
    case OtherKey => o
  }

  function Cells(digits: string, length: nat): seq<string> {
    seq(length, i requires 0 <= i < length => if i < |digits| then [digits[i]] else "")
  }

  function FirstDigits(text: string, length: nat): string {
    var digits := DigitsOf(text);
    if |digits| < length then digits else digits[..length]
  }

  /** Focus after `count` digits: the next cell, or the last; no cell when there are none. */
  function FocusAfter(count: nat, length: nat, focus: nat): nat {
    if length == 0 then focus else if count < length then count else length - 1
  }

  function HandlePaste(o: Otp, text: string): Otp {
    var digits := FirstDigits(text, |o.values|);
    NotifyIfComplete(Otp(Cells(digits, |o.values|), FocusAfter(|digits|, |o.values|, o.focus), o.completed))
  }

  // ---------------------------------------------------------------------------------------
  // Every run
  // ---------------------------------------------------------------------------------------

  datatype Event = Change(index: nat, rawValue: string) | KeyDown(index: nat, key: Key) | Paste(text: string)

  function Handle(o: Otp, event: Event): Otp {
    match event
    case Change(index, rawValue) => if index < |o.values| then HandleChange(o, index, rawValue) else o
    case KeyDown(index, key) => if index < |o.values| then HandleKeyDown(o, index, key) else o
    case Paste(text) => HandlePaste(o, text)
  }

  /** A complete code: one digit for each cell. */
  predicate IsCode(code: string, length: nat) {
    |code| == length && AllDigits(code)
  }

  predicate IsCell(value: string) {
    |value| <= 1 && AllDigits(value)
  }

  /** Every cell holds at most one digit, and every code reported so far was complete. */
  predicate WellFormed(o: Otp) {
    && (forall i :: 0 <= i < |o.values| ==> IsCell(o.values[i]))
    && (forall i :: 0 <= i < |o.completed| ==> IsCode(o.completed[i], |o.values|))
  }

  lemma {:induction false} JoinOfDigits(values: seq<string>)
    requires Filled(values) && forall i :: 0 <= i < |values| ==> IsCell(values[i])
    ensures IsCode(Join(values), |values|)
  {
    if values != [] {
      JoinOfDigits(values[1..]);
    }
  }

  /** No event, in any order, puts anything but one digit in a cell or reports a partial code. */
  lemma {:induction false} HandleKeepsWellFormed(o: Otp, event: Event)
    requires WellFormed(o)
    ensures var after := Handle(o, event);
            && WellFormed(after) && |after.values| == |o.values| && o.completed <= after.completed
            && |after.completed| <= |o.completed| + 1
  {
    var after := Handle(o, event);
    if o.completed != after.completed {
      forall i | 0 <= i < |after.values| ensures IsCell(after.values[i]) {
      }
      JoinOfDigits(after.values);
    }
  }

  /** The code reads cell by cell what the cells hold. */
  ghost predicate ReadsCells(code: string, values: seq<string>) {
    |code| == |values| && forall k :: 0 <= k < |values| ==> values[k] == [code[k]]
  }

  /** The event puts something into the cells, or tries to. */
  predicate Enters(event: Event, length: nat) {
    event.Paste? || (event.Change? && event.index < length)
  }

  lemma {:induction false} JoinReadsCells(values: seq<string>)
    requires Filled(values) && forall i :: 0 <= i < |values| ==> IsCell(values[i])
    ensures ReadsCells(Join(values), values)
  {
    if values != [] {
      JoinReadsCells(values[1..]);
      assert Join(values) == values[0] + Join(values[1..]);
    }
  }

  /** A code is reported exactly when an entry leaves every cell filled, and it is what they hold. */
  lemma {:induction false} ReportsTheCells(o: Otp, event: Event)
    requires WellFormed(o)
    ensures var after := Handle(o, event);
            if Enters(event, |o.values|) && (forall k :: 0 <= k < |after.values| ==> after.values[k] != "")
            then |after.completed| == |o.completed| + 1 && ReadsCells(after.completed[|o.completed|], after.values)
            else after.completed == o.completed
  {
    HandleKeepsWellFormed(o, event);
    var after := Handle(o, event);
    if Filled(after.values) {
      JoinReadsCells(after.values);
    }
  }

  lemma {:induction false} DigitsOfJoined(a: string, b: string)
    ensures DigitsOf(a + b) == DigitsOf(a) + DigitsOf(b)
  {
    if a == "" {
      assert a + b == b;
    } else {
      DigitsOfJoined(a[1..], b);
      var first := if IsDigit(a[0]) then [a[0]] else "";
      assert (a + b)[0] == a[0] && (a + b)[1..] == a[1..] + b;
      assert first + (DigitsOf(a[1..]) + DigitsOf(b)) == (first + DigitsOf(a[1..])) + DigitsOf(b);
    }
  }

  lemma {:induction false} DigitsAreKept(s: string)
    ensures AllDigits(s) ==> DigitsOf(s) == s
    ensures (forall i :: 0 <= i < |s| ==> !IsDigit(s[i])) ==> DigitsOf(s) == ""
    ensures forall c: char :: IsDigit(c) <==> c in "0123456789"
  {
    if s != "" {
      DigitsAreKept(s[1..]);
    }
  }

  /**
   What a change leaves: the last digit of the raw text in its cell, the others as they were,
   and the focus in the next cell if there is one.
   */
  lemma {:induction false} ChangeKeepsLastDigit(o: Otp, index: nat, before: string, digit: char, rest: string)
    requires index < |o.values| && digit in "0123456789" && forall i :: 0 <= i < |rest| ==> rest[i] !in "0123456789"
    ensures var after := HandleChange(o, index, before + [digit] + rest);
            && after.values[index] == [digit] && (forall k :: 0 <= k < |o.values| && k != index ==> after.values[k] == o.values[k])
            && |after.values| == |o.values| && after.focus == if index + 1 < |o.values| then index + 1 else o.focus
  {
    DigitsOfJoined(before + [digit], rest);
    DigitsOfJoined(before, [digit]);
    DigitsAreKept([digit]);
    DigitsAreKept(rest);
    assert DigitsOf(before + [digit] + rest) == DigitsOf(before) + [digit];
  }

  /** A raw text without digits empties the cell and leaves the focus. */
  lemma {:induction false} ChangeWithoutDigit(o: Otp, index: nat, raw: string)
    requires index < |o.values| && forall i :: 0 <= i < |raw| ==> raw[i] !in "0123456789"
    ensures var after := HandleChange(o, index, raw);
            && after.values[index] == "" && (forall k :: 0 <= k < |o.values| && k != index ==> after.values[k] == o.values[k])
            && |after.values| == |o.values| && after.focus == o.focus && after.completed == o.completed
  {
    DigitsAreKept(raw);
  }

  /**
   What the keys do in the cell at `index`: Backspace empties it, or when it is empty the one
   before it, where it moves; the left arrow moves back, the right arrow on, within the cells.
   */
  lemma {:induction false} KeysMove(o: Otp, index: nat)
    requires index < |o.values|
    ensures var left, right := HandleKeyDown(o, index, ArrowLeft), HandleKeyDown(o, index, ArrowRight);
            && left.values == o.values == right.values && left.completed == o.completed == right.completed
            && (index == 0 ==> left.focus == o.focus) && (index > 0 ==> left.focus + 1 == index)
            && (index + 1 == |o.values| ==> right.focus == o.focus) && (index + 1 < |o.values| ==> right.focus == index + 1)
    ensures var after := HandleKeyDown(o, index, Backspace);
            var cleared := if o.values[index] != "" || index == 0 then index else index - 1;
            && |after.values| == |o.values| && after.completed == o.completed && after.values[cleared] == ""
            && (forall k :: 0 <= k < |o.values| && k != cleared ==> after.values[k] == o.values[k])
            && after.focus == if cleared == index then o.focus else cleared
    ensures HandleKeyDown(o, index, OtherKey) == o
  {
  }

  // ---------------------------------------------------------------------------------------
  // Typing, pasting, erasing
  // ---------------------------------------------------------------------------------------

  /** Type digits one at a time into whichever cell has the focus. */
  function Type(o: Otp, digits: string): Otp {
    if digits == "" then o
    else
      var before := Type(o, digits[..|digits| - 1]);
      if before.focus < |before.values| then HandleChange(before, before.focus, [digits[|digits| - 1]]) else before
  }

  /** Press Backspace `count` times, each time in the focused cell. */
  function Erase(o: Otp, count: nat): Otp
    decreases count
  {
    if count == 0 || o.focus >= |o.values| then o
    else Erase(HandleKeyDown(o, o.focus, Backspace), count - 1)
  }

  /** The widget holding `digits` from the left, with the code reported once they fill it. */
  function Holding(digits: string, length: nat, completed: seq<string>): Otp {
    Otp(Cells(digits, length), FocusAfter(|digits|, length, 0),
        completed + if |digits| == length && length > 0 then [digits] else [])
  }

  lemma {:induction false} JoinOfCells(digits: string)
    ensures Join(Cells(digits, |digits|)) == digits
  {
    if digits != "" {
      JoinOfCells(digits[1..]);
      assert Cells(digits, |digits|)[1..] == Cells(digits[1..], |digits| - 1);
      assert digits == [digits[0]] + digits[1..];
    }
  }

  /** Typing the next digit into the cell in focus. */
  lemma {:induction false} TypeOne(digits: string, length: nat, completed: seq<string>)
    requires AllDigits(digits) && 0 < |digits| <= length
    ensures var before := Holding(digits[..|digits| - 1], length, completed);
            before.focus == |digits| - 1
            && HandleChange(before, before.focus, [digits[|digits| - 1]]) == Holding(digits, length, completed)
  {
    var n := |digits|;
    var before, typed := Holding(digits[..n - 1], length, completed), [digits[n - 1]];
    assert DigitsOf(typed) == typed + DigitsOf(typed[1..]);
    assert LastOf(DigitsOf(typed)) == typed;
    assert before.values[n - 1 := typed] == Cells(digits, length);
    if n == length {
      JoinOfCells(digits);
    } else {
      assert Cells(digits, length)[n] == "";
    }
  }

  lemma {:induction false} TypeHolds(digits: string, length: nat, completed: seq<string>)
    requires AllDigits(digits) && |digits| <= length
    ensures Type(Blank(length, completed), digits) == Holding(digits, length, completed)
  {
    if digits == "" {
      assert Cells("", length) == Blank(length, completed).values;
    } else {
      TypeHolds(digits[..|digits| - 1], length, completed);
      TypeOne(digits, length, completed);
    }
  }

  /**
   Pasting any text over any state is typing its first digits into a blank input: same
   cells, same focus, same `onComplete` calls. As functions the two agree only when there is a
   cell; without one the component has no input to paste into.
   */
  lemma {:induction false} PasteIsTyping(o: Otp, text: string)
    ensures HandlePaste(o, text) == Type(Blank(|o.values|, o.completed), FirstDigits(text, |o.values|))
            <==> |o.values| > 0
  {
    var length := |o.values|;
    var digits := FirstDigits(text, length);
    TypeHolds(digits, length, o.completed);
    if |digits| == length {
      JoinOfCells(digits);
    } else {
      assert Cells(digits, length)[|digits|] == "";
    }
  }

  /** A paste puts the first digits of the text into the cells from the left, and empties the rest. */
  lemma {:induction false} PasteFillsCells(o: Otp, text: string)
    ensures var after, digits := HandlePaste(o, text), DigitsOf(text);
            && |after.values| == |o.values|
            && (forall k :: 0 <= k < |o.values| ==> after.values[k] == if k < |digits| then [digits[k]] else "")
            && (|o.values| > 0 ==> after.focus == if |digits| < |o.values| then |digits| else |o.values| - 1)
  {
  }

  lemma {:induction false} EraseHolding(digits: string, length: nat, completed: seq<string>)
    requires |digits| < length
    ensures var start := Otp(Cells(digits, length), |digits|, completed);
            Erase(start, |digits|) == Blank(length, completed)
  {
    var start := Otp(Cells(digits, length), |digits|, completed);
    if digits == "" {
      assert start.values == Blank(length, completed).values;
    } else {
      var fewer := digits[..|digits| - 1];
      assert start.values[|fewer| := ""] == Cells(fewer, length);
      EraseHolding(fewer, length, completed);
    }
  }

  /** Any `k` digits typed into a blank input are undone by `k` Backspaces, focus included. */
  lemma {:induction false} EraseUndoesTyping(digits: string, length: nat, completed: seq<string>)
    requires AllDigits(digits) && |digits| <= length
    ensures var typed := Type(Blank(length, completed), digits);
            Erase(typed, |digits|) == Blank(length, typed.completed)
  {
    TypeHolds(digits, length, completed);
    var typed := Holding(digits, length, completed);
    if |digits| < length {
      EraseHolding(digits, length, typed.completed);
    } else if length > 0 {
      var fewer := digits[..length - 1];
      assert typed.values[length - 1 := ""] == Cells(fewer, length);
      EraseHolding(fewer, length, typed.completed);
    } else {
      assert typed.values == Blank(0, completed).values;
    }
  }

  // ---------------------------------------------------------------------------------------
  // The component
  // ---------------------------------------------------------------------------------------

  class OtpInputComponent {
    var values: seq<string>
    var focused: nat
    var completed: seq<string>

    ghost function State(): Otp
      reads this
    {
      Otp(values, focused, completed)
    }

    constructor (length: nat)
      ensures State() == Blank(length, [])
    {
      values, focused, completed := seq(length, _ => ""), 0, [];
    }

    /** Move focus to the cell at `index` if it is mounted. */
    method Focus(index: int)
      modifies this`focused
      ensures focused == if 0 <= index < |values| then index else old(focused)
    {
      if 0 <= index < |values| {
        focused := index;
      }
    }

    method Notify()
      modifies this`completed
      ensures State() == NotifyIfComplete(old(State()))
    {
      if Filled(values) {
        completed := completed + [Join(values)];
      }
    }

    method Change(index: nat, rawValue: string)
      requires index < |values|
      modifies this
      ensures State() == HandleChange(old(State()), index, rawValue)
    {
      var digit := LastOf(DigitsOf(rawValue));
      values := values[index := digit];
      if |digit| > 0 && index < |values| - 1 {
        Focus(index + 1);
      }
      Notify();
    }

    method KeyDown(index: nat, key: Key)
      requires index < |values|
      modifies this
      ensures State() == HandleKeyDown(old(State()), index, key)
    {
      match key {
        case Backspace =>
          if values[index] == "" && index > 0 {
            values := values[index - 1 := ""];
            Focus(index - 1);
          } else {
            values := values[index := ""];
          }
        case ArrowLeft =>
          Focus(index - 1);
        case ArrowRight =>
          Focus(index + 1);
        case OtherKey =>
      }
    }

    method Paste(text: string)
      modifies this
      ensures State() == HandlePaste(old(State()), text)
    {
      var digits := FirstDigits(text, |values|);
      values := Cells(digits, |values|);
      Focus(if |digits| < |values| then |digits| else |values| - 1);
      Notify();
    }

    /** Whichever event the mounted cells raise. */
    method Receive(event: Event)
      modifies this
      ensures State() == Handle(old(State()), event)
    {
      match event {
        case Change(index, rawValue) =>
          if index < |values| {
            Change(index, rawValue);
          }
        case KeyDown(index, key) =>
          if index < |values| {
            KeyDown(index, key);
          }
        case Paste(text) =>
          Paste(text);
      }
    }
  }
}
