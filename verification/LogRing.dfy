/** The status log of the terminal client: a ring of the last lines and a selected one. */
module LogRing {
  import opened Common

  const CAPACITY: nat := 128

  datatype Line = Line(sequence: nat, text: string)

  /** The last lines that fit the ring. */
  function Recent(lines: seq<Line>): seq<Line> {
    if |lines| <= CAPACITY then lines else lines[|lines| - CAPACITY..]
  }

  /** Numbered one after another, the last with a given number. */
  predicate Consecutive(lines: seq<Line>, last: nat) {
    |lines| <= last && forall k :: 0 <= k < |lines| ==> lines[k].sequence == last - |lines| + 1 + k
  }

  /** The slots, read from the head, hold the lines. */
  predicate Holds(slots: seq<Line>, head: nat, lines: seq<Line>) {
    && |slots| == CAPACITY && head < CAPACITY && |lines| <= CAPACITY
    && forall j :: 0 <= j < |lines| ==> slots[(head + j) % CAPACITY] == lines[j]
  }

  /** The selection names one of the last lines; without lines there is none. */
  predicate Live(count: nat, last: nat, selected: nat) {
    if count == 0 then selected == 0 else last - count < selected <= last
  }

  /** The live selection is the number of a line that is shown. */
  lemma LiveIsShown(lines: seq<Line>, last: nat, selected: nat)
    requires Consecutive(lines, last) && Live(|Recent(lines)|, last, selected) && lines != []
    ensures var place := selected - (last - |Recent(lines)| + 1);
            0 <= place < |Recent(lines)| && Recent(lines)[place].sequence == selected
  {
    RecentConsecutive(lines, last);
  }

  lemma SlotsDiffer(head: nat, i: nat, j: nat)
    requires i < j < CAPACITY
    ensures (head + i) % CAPACITY != (head + j) % CAPACITY
  {
  }

  lemma HoldsAppend(slots: seq<Line>, head: nat, lines: seq<Line>, line: Line)
    requires Holds(slots, head, lines) && |lines| < CAPACITY
    ensures Holds(slots[(head + |lines|) % CAPACITY := line], head, lines + [line])
  {
    var slots' := slots[(head + |lines|) % CAPACITY := line];
    forall j | 0 <= j < |lines| + 1 ensures slots'[(head + j) % CAPACITY] == (lines + [line])[j] {
      if j < |lines| {
        SlotsDiffer(head, j, |lines|);
      }
    }
  }

  lemma HoldsShift(slots: seq<Line>, head: nat, lines: seq<Line>, line: Line)
    requires Holds(slots, head, lines) && |lines| == CAPACITY
    ensures Holds(slots[head := line], (head + 1) % CAPACITY, lines[1..] + [line])
  {
    var slots', head' := slots[head := line], (head + 1) % CAPACITY;
    var lines' := lines[1..] + [line];
    forall j | 0 <= j < CAPACITY ensures slots'[(head' + j) % CAPACITY] == lines'[j] {
      NextSlot(head, j);
      if j < CAPACITY - 1 {
        SlotsDiffer(head, 0, j + 1);
        assert slots[(head + (j + 1)) % CAPACITY] == lines[j + 1];
      }
    }
  }

  lemma NextSlot(head: nat, j: nat)
    requires head < CAPACITY && j < CAPACITY
    ensures ((head + 1) % CAPACITY + j) % CAPACITY == (head + (j + 1)) % CAPACITY
    ensures j == CAPACITY - 1 ==> (head + (j + 1)) % CAPACITY == head
  {
  }

  lemma RecentAppend(lines: seq<Line>, line: Line)
    ensures Recent(lines + [line])
         == if |Recent(lines)| < CAPACITY then Recent(lines) + [line] else Recent(lines)[1..] + [line]
  {
  }

  lemma RecentConsecutive(lines: seq<Line>, last: nat)
    requires Consecutive(lines, last)
    ensures Consecutive(Recent(lines), last)
  {
  }

  /** A position, kept within the lines. */
  function Clamp(position: int, count: nat): nat
    requires count > 0
  {
    if position < 0 then 0 else if position >= count then count - 1 else position
  }

  /** Where the selection goes when a line is added: along with the newest line if it stood there,
      and on to the oldest line if its own is gone. */
  function Followed(selected: nat, count: nat, last: nat): nat {
    var shown := if count < CAPACITY then count + 1 else CAPACITY;
    if count == 0 || selected == last then last + 1
    else if selected < last + 2 - shown then last + 2 - shown
    else selected
  }

  class Log {
    const slots: array<Line>
    var head: nat
    var count: nat
    var selected: nat
    var last: nat
    var status: string

    /** Every line since the log was last cleared. */
    ghost var lines: seq<Line>

    ghost predicate Valid()
      reads this, slots
    {
      && Holds(slots[..], head, Recent(lines))
      && count == |Recent(lines)|
      && Consecutive(lines, last)
      && Live(count, last, selected)
    }

    constructor ()
      ensures Valid() && lines == [] && status == "" && last == 0 && fresh(slots)
    {
      slots := new Line[CAPACITY](_ => Line(0, ""));
      head, count, selected, last, status, lines := 0, 0, 0, 0, "", [];
    }

    /** The line shown for an index, if there is one. */
    method Entry(index: nat) returns (line: Option<Line>)
      requires Valid()
      ensures line == if index < count then Some(Recent(lines)[index]) else None
      ensures line.Some? ==> line.value.sequence == last - count + 1 + index
    {
      if index >= count {
        return None;
      }
      RecentConsecutive(lines, last);
      line := Some(slots[(head + index) % CAPACITY]);
    }

    /** Takes the next free slot, or the oldest line's. */
    method Append(line: Line)
      requires Valid() && line.sequence == last + 1
      modifies this`head, this`count, this`last, this`lines, slots
      ensures Holds(slots[..], head, Recent(lines)) && count == |Recent(lines)| && Consecutive(lines, last)
      ensures lines == old(lines) + [line] && last == old(last) + 1
      ensures count == if old(count) < CAPACITY then old(count) + 1 else CAPACITY
    {
      hide Holds, Consecutive, Recent;
      SlotCount(slots[..], head, Recent(lines));
      ghost var before, recent := slots[..], Recent(lines);
      RecentAppend(lines, line);
      ConsecutiveAppend(lines, last, line.text);
      var slot;
      if count < CAPACITY {
        HoldsAppend(before, head, recent, line);
        slot := (head + count) % CAPACITY;
        count := count + 1;
      } else {
        HoldsShift(before, head, recent, line);
        slot := head;
        head := (head + 1) % CAPACITY;
      }
      slots[slot] := line;
      assert slots[..] == before[slot := line];
      last, lines := last + 1, lines + [line];
    }

    /** A new status is one more line; the same status again is none. */
    method SetStatus(text: string)
      requires Valid()
      modifies this, slots
      ensures Valid() && status == text
      ensures old(status) == text ==> lines == old(lines) && selected == old(selected) && last == old(last)
      ensures old(status) != text ==>
                && lines == old(lines) + [Line(old(last) + 1, text)]
                && last == old(last) + 1
                && selected == Followed(old(selected), old(count), old(last))
    {
      hide Holds, Consecutive, Recent;
      if status == text {
        return;
      }
      status := text;
      Counted(lines, last);
      var follow := count == 0;
      if count != 0 {
        var newest := Entry(count - 1);
        follow := selected == newest.value.sequence;
      }
      Append(Line(last + 1, text));
      Counted(lines, last);
      OldestSlot(slots[..], head, Recent(lines));
      var oldest := slots[head];
      RecentConsecutive(lines, last);
      OldestNumber(Recent(lines), last);
      if follow || selected == 0 {
        selected := last;
      } else if count == CAPACITY && selected < oldest.sequence {
        selected := oldest.sequence;
      }
    }

    /** The position of the selected line. */
    method Position() returns (position: nat)
      requires Valid()
      ensures count == 0 ==> position == 0
      ensures count > 0 ==> position < count && position == selected - (last - count + 1)
    {
      hide Holds, Consecutive, Recent;
      position := 0;
      if count == 0 {
        return;
      }
      var line := Entry(0);
      while line.value.sequence != selected && position + 1 < count
        invariant position < count && position <= selected - (last - count + 1)
        invariant line.Some? && line.value.sequence == last - count + 1 + position
      {
        position := position + 1;
        line := Entry(position);
      }
    }

    /** Moves the selection by some lines, no further than the oldest and the newest. */
    method Move(delta: int)
      requires Valid()
      modifies this`selected
      ensures Valid()
      ensures count == 0 ==> selected == old(selected)
      ensures count > 0 ==>
                selected == last - count + 1 + Clamp(old(selected) - (last - count + 1) + delta, count)
    {
      hide Holds, Consecutive, Recent;
      if count == 0 {
        return;
      }
      var position := Position();
      if delta < 0 {
        var amount := -delta;
        position := if amount > position then 0 else position - amount;
      } else if delta > 0 {
        position := if delta >= count - position then count - 1 else position + delta;
      }
      var line := Entry(position);
      selected := line.value.sequence;
    }

    /** Forgets the lines, but neither the status nor the numbering. */
    method Clear()
      requires Valid()
      modifies this`head, this`count, this`selected, this`lines
      ensures Valid() && lines == [] && selected == 0
    {
      head, count, selected, lines := 0, 0, 0, [];
    }
  }

  lemma SlotCount(slots: seq<Line>, head: nat, lines: seq<Line>)
    requires Holds(slots, head, lines)
    ensures |slots| == CAPACITY && head < CAPACITY && |lines| <= CAPACITY
  {
  }

  lemma OldestSlot(slots: seq<Line>, head: nat, lines: seq<Line>)
    requires Holds(slots, head, lines) && lines != []
    ensures |slots| == CAPACITY && head < CAPACITY && slots[head] == lines[0]
  {
    assert (head + 0) % CAPACITY == head;
  }

  lemma ConsecutiveAppend(lines: seq<Line>, last: nat, text: string)
    requires Consecutive(lines, last)
    ensures Consecutive(lines + [Line(last + 1, text)], last + 1)
  {
  }

  lemma Counted(lines: seq<Line>, last: nat)
    requires Consecutive(lines, last)
    ensures |Recent(lines)| <= last
  {
  }

  lemma OldestNumber(lines: seq<Line>, last: nat)
    requires Consecutive(lines, last) && lines != []
    ensures lines[0].sequence == last - |lines| + 1
  {
  }
}
