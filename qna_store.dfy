/**
 * `save_qna` of the four question-and-answer scripts: the items of one parsed LLM answer are
 * turned into rows of the SQLite table `qg`, one per item whose stripped question and answer
 * are both non-empty, under the key `qgid` = 14-character timestamp + two-digit chunk (or
 * slide) index + two-digit item index. The rows are committed together at the end of the
 * call; an exception anywhere in the call leaves the table as it was.
 *
 * The two chunk-based scripts convert the priority strictly (an unconvertible priority raises,
 * even on an item that is then skipped); the two slide-based scripts fall back to `0.0`.
 * Python's `float` on a string is the oracle `parseFloat`.
 */
module QnaStore {
  import opened Wrappers
  import opened Text

  /** A JSON value inside one generated item; `Other` is `null`, an array or an object. */
  datatype Field = Str(s: string) | Num(n: real) | Bool(b: bool) | Other

  /** One element of the parsed array: a JSON object, or any other value. */
  datatype Item = Object(fields: map<string, Field>) | NotObject

  /** How the priority is converted: with no fallback, or falling back to `0.0`. */
  datatype PriorityRule = Strict | Lenient

  /** The arguments of one call besides the items, with the call's timestamp and model column. */
  datatype Call = Call(videoId: string, course: string, section: string, voice: string, chunkIndex: nat,
                       stamp: string, createdAt: string, model: Option<string>)

  /** One row of `qg` (without its key); `model` is the column only the slide-based answer script has. */
  datatype Row = Row(videoId: string, voiceChunk: string, explain: string, question: string, priority: real,
                     course: string, section: string, chunkIndex: nat, createdAt: string, model: Option<string>)

  /** A row to insert, with the position of its item in the list. */
  datatype Insert = Insert(index: nat, qgid: string, row: Row)

  /** What the loop body does with one item. */
  datatype ItemOutcome = Raises | Skipped | Kept(qgid: string, row: Row)

  /** `item.get(key, "").strip()`; `None` when it raises (the item is no object, or the value no string). */
  function TextField(item: Item, key: string): (r: Option<string>)
    ensures r.Some? ==> IsStripped(r.value)
    ensures item.Object? && key !in item.fields ==> r == Some("")
  {
    if !item.Object? then None
    else if key !in item.fields then Some("")
    else match item.fields[key]
      case Str(s) => Some(Strip(s))
      case _ => None
  }

  /** `float(item.get("priority", 0.0))`; `None` when it raises. */
  function Priority(item: Item, parseFloat: string -> Option<real>): (r: Option<real>)
    requires item.Object?
    ensures "priority" !in item.fields ==> r == Some(0.0)
    ensures "priority" in item.fields && item.fields["priority"].Other? ==> r == None
  {
    if "priority" !in item.fields then Some(0.0)
    else match item.fields["priority"]
      case Num(n) => Some(n)
      case Bool(b) => Some(if b then 1.0 else 0.0)
      case Str(s) => parseFloat(s)
      case Other => None
  }

  /** `now.strftime("%Y%m%d%H%M%S") + f"{chunk_index:02d}{i:02d}"`, the timestamp given. */
  function Qgid(stamp: string, chunkIndex: nat, i: nat): string
  {
    stamp + Pad2(chunkIndex) + Pad2(i)
  }

  /** The loop body for item `i`: read question, answer and priority, skip blanks, build the row. */
  function Outcome(call: Call, i: nat, item: Item, parseFloat: string -> Option<real>, rule: PriorityRule): ItemOutcome
  {
    var question, answer := TextField(item, "question"), TextField(item, "answer");
    if question.None? || answer.None? then Raises
    else Decide(call, i, question.value, answer.value, Priority(item, parseFloat), rule)
  }

  /** The loop body once the question and the answer are read. */
  function Decide(call: Call, i: nat, question: string, answer: string, priority: Option<real>, rule: PriorityRule): ItemOutcome
  {
    if rule == Strict && priority.None? then Raises
    else if question == "" || answer == "" then Skipped
    else
      Kept(Qgid(call.stamp, call.chunkIndex, i),
           Row(call.videoId, call.voice, answer, question, if priority.Some? then priority.value else 0.0,
               call.course, call.section, call.chunkIndex, call.createdAt, call.model))
  }

  /** The rows one call would insert, in item order; `None` when some item raises. */
  function Planned(call: Call, items: seq<Item>, parseFloat: string -> Option<real>, rule: PriorityRule): Option<seq<Insert>>
  {
    if items == [] then Some([])
    else
      var n := |items| - 1;
      PlanStep(Planned(call, items[..n], parseFloat, rule), n, Outcome(call, n, items[n], parseFloat, rule))
  }

  /** One item's effect on the plan so far. */
  function PlanStep(before: Option<seq<Insert>>, n: nat, o: ItemOutcome): Option<seq<Insert>>
  {
    match o
    case Raises => None
    case Skipped => before
    case Kept(qgid, row) => if before.None? then None else Some(before.value + [Insert(n, qgid, row)])
  }

  /** The table after inserting `items` one by one; `None` when an item raises or a key is taken. */
  function Inserted(table: map<string, Row>, call: Call, items: seq<Item>,
                    parseFloat: string -> Option<real>, rule: PriorityRule): Option<map<string, Row>>
  {
    if items == [] then Some(table)
    else
      var n := |items| - 1;
      InsertStep(Inserted(table, call, items[..n], parseFloat, rule), Outcome(call, n, items[n], parseFloat, rule))
  }

  /** One item's effect on the table so far. */
  function InsertStep(before: Option<map<string, Row>>, o: ItemOutcome): Option<map<string, Row>>
  {
    if before.None? then None
    else match o
      case Raises => None
      case Skipped => before
      case Kept(qgid, row) => if qgid in before.value then None else Some(before.value[qgid := row])
  }

  /** The rows of a plan, by key. */
  function AsMap(ins: seq<Insert>): map<string, Row>
  {
    if ins == [] then map[] else AsMap(ins[..|ins| - 1])[ins[|ins| - 1].qgid := ins[|ins| - 1].row]
  }

  /** The SQLite table `qg`, keyed by `qgid`. */
  class QgTable {
    var rows: map<string, Row>

    constructor()
      ensures rows == map[]
    {
      rows := map[];
    }

    /**
     * One call of `save_qna`: `Some(len(qna_list))`, the count it prints, once everything is
     * committed; `None` when the call raises, with nothing committed.
     */
    method SaveQna(call: Call, items: seq<Item>, parseFloat: string -> Option<real>, rule: PriorityRule)
      returns (reported: Option<nat>)
      modifies this
      ensures Inserted(old(rows), call, items, parseFloat, rule).None? ==> reported == None && rows == old(rows)
      ensures Inserted(old(rows), call, items, parseFloat, rule).Some? ==>
                reported == Some(|items|) && rows == Inserted(old(rows), call, items, parseFloat, rule).value
    {
      ghost var table := rows;
      var pending := rows;
      var i := 0;
      while i < |items|
        invariant 0 <= i <= |items| && rows == table
        invariant Inserted(table, call, items[..i], parseFloat, rule) == Some(pending)
      {
        InsertedPrefix(table, call, items, i, parseFloat, rule);
        var next := InsertItem(call, i, items[i], parseFloat, rule, pending);
        if next.None? {
          InsertedFailed(table, call, items, i + 1, parseFloat, rule);
          return None;
        }
        pending := next.value;
        i := i + 1;
      }
      assert items[..i] == items;
      rows := pending;
      reported := Some(|items|);
    }
  }

  /** The loop body of `save_qna` for item `i`: `None` when it raises (an INSERT on a taken key included). */
  method InsertItem(call: Call, i: nat, item: Item, parseFloat: string -> Option<real>, rule: PriorityRule,
                    pending: map<string, Row>) returns (next: Option<map<string, Row>>)
    ensures next == InsertStep(Some(pending), Outcome(call, i, item, parseFloat, rule))
  {
    var question := TextField(item, "question");
    var answer := TextField(item, "answer");
    if question.None? || answer.None? {
      return None;
    }
    var priority := Priority(item, parseFloat);
    assert Outcome(call, i, item, parseFloat, rule) == Decide(call, i, question.value, answer.value, priority, rule);
    next := Store(call, i, question.value, answer.value, priority, rule, pending);
  }

  /** The rest of the loop body, once the question and the answer are read. */
  method Store(call: Call, i: nat, question: string, answer: string, priority: Option<real>, rule: PriorityRule,
               pending: map<string, Row>) returns (next: Option<map<string, Row>>)
    ensures next == InsertStep(Some(pending), Decide(call, i, question, answer, priority, rule))
  {
    var value := 0.0;
    if priority.None? {
      if rule == Strict {
        return None;
      }
    } else {
      value := priority.value;
    }
    if question == "" || answer == "" {
      return Some(pending);
    }
    var qgid := call.stamp + Pad2(call.chunkIndex) + Pad2(i);
    if qgid in pending {
      // the PRIMARY KEY constraint
      return None;
    }
    next := Some(pending[qgid := Row(call.videoId, call.voice, answer, question, value,
                                     call.course, call.section, call.chunkIndex, call.createdAt, call.model)]);
  }

  lemma InsertedPrefix(table: map<string, Row>, call: Call, items: seq<Item>, k: nat,
                       parseFloat: string -> Option<real>, rule: PriorityRule)
    requires k < |items|
    ensures Inserted(table, call, items[..k + 1], parseFloat, rule) ==
            InsertStep(Inserted(table, call, items[..k], parseFloat, rule), Outcome(call, k, items[k], parseFloat, rule))
  {
    assert items[..k + 1][..k] == items[..k];
  }

  /** Once a prefix of the items fails, the whole call fails. */
  lemma {:induction false} InsertedFailed(table: map<string, Row>, call: Call, items: seq<Item>, k: nat,
                                         parseFloat: string -> Option<real>, rule: PriorityRule)
    requires k <= |items| && Inserted(table, call, items[..k], parseFloat, rule).None?
    ensures Inserted(table, call, items, parseFloat, rule).None?
    decreases |items| - k
  {
    if k < |items| {
      InsertedPrefix(table, call, items, k, parseFloat, rule);
      InsertedFailed(table, call, items, k + 1, parseFloat, rule);
    } else {
      assert items[..k] == items;
    }
  }

  // ---- one item ----

  /** An item that does not raise gives a row exactly when its stripped question and answer are both non-empty. */
  lemma SkipsBlank(call: Call, i: nat, item: Item, parseFloat: string -> Option<real>, rule: PriorityRule)
    requires Outcome(call, i, item, parseFloat, rule) != Raises
    ensures TextField(item, "question").Some? && TextField(item, "answer").Some?
    ensures Outcome(call, i, item, parseFloat, rule).Kept? <==>
            TextField(item, "question").value != "" && TextField(item, "answer").value != ""
  {
  }

  /**
   * The row of a kept item: its key is built from the timestamp and the two indexes, it holds
   * the stripped question and answer and the chunk index of the call, and its priority is the
   * converted one or, under the lenient rule, `0.0` when the conversion fails.
   */
  lemma KeptRow(call: Call, i: nat, item: Item, parseFloat: string -> Option<real>, rule: PriorityRule)
    requires Outcome(call, i, item, parseFloat, rule).Kept?
    ensures var o := Outcome(call, i, item, parseFloat, rule);
            && item.Object?
            && o.qgid == Qgid(call.stamp, call.chunkIndex, i)
            && o.row.question == TextField(item, "question").value && o.row.question != ""
            && o.row.explain == TextField(item, "answer").value && o.row.explain != ""
            && o.row.voiceChunk == call.voice && o.row.videoId == call.videoId
            && o.row.chunkIndex == call.chunkIndex
            && (rule == Strict ==> Priority(item, parseFloat).Some?)
            && o.row.priority == (if Priority(item, parseFloat).Some? then Priority(item, parseFloat).value else 0.0)
  {
  }

  /** Under the lenient rule the priority never raises: only a missing or non-string question or answer does. */
  lemma LenientRaises(call: Call, i: nat, item: Item, parseFloat: string -> Option<real>)
    ensures Outcome(call, i, item, parseFloat, Lenient) == Raises <==>
            TextField(item, "question").None? || TextField(item, "answer").None?
  {
  }

  /** Under the strict rule an unconvertible priority raises even when the item would be skipped. */
  lemma StrictRaises(call: Call, i: nat, item: Item, parseFloat: string -> Option<real>)
    requires item.Object? && Priority(item, parseFloat).None?
    ensures Outcome(call, i, item, parseFloat, Strict) == Raises
  {
  }

  /**
   * An item with no question and a `null` priority: the strict scripts abort the whole call on
   * it, the lenient ones skip it.
   */
  lemma StrictAbortsWhereLenientSkips(call: Call, parseFloat: string -> Option<real>)
    ensures var item := Object(map["priority" := Other]);
            && Planned(call, [item], parseFloat, Strict) == None
            && Planned(call, [item], parseFloat, Lenient) == Some([])
  {
    var item := Object(map["priority" := Other]);
    assert [item][..0] == [];
    assert TextField(item, "question") == Some("");
  }

  // ---- the plan of one call ----

  lemma PlannedPrefix(call: Call, items: seq<Item>, k: nat, parseFloat: string -> Option<real>, rule: PriorityRule)
    requires k < |items|
    ensures Planned(call, items[..k + 1], parseFloat, rule) ==
            PlanStep(Planned(call, items[..k], parseFloat, rule), k, Outcome(call, k, items[k], parseFloat, rule))
  {
    assert items[..k + 1][..k] == items[..k];
  }

  predicate RaisesAt(call: Call, items: seq<Item>, parseFloat: string -> Option<real>, rule: PriorityRule, j: int)
  {
    0 <= j < |items| && Outcome(call, j, items[j], parseFloat, rule) == Raises
  }

  lemma {:induction false} FailureHasCause(call: Call, items: seq<Item>, parseFloat: string -> Option<real>, rule: PriorityRule)
    requires Planned(call, items, parseFloat, rule).None?
    ensures exists j :: RaisesAt(call, items, parseFloat, rule, j)
  {
    var n := |items| - 1;
    PlannedPrefix(call, items, n, parseFloat, rule);
    assert items[..n + 1] == items;
    if !RaisesAt(call, items, parseFloat, rule, n) {
      FailureHasCause(call, items[..n], parseFloat, rule);
      var j :| RaisesAt(call, items[..n], parseFloat, rule, j);
      assert items[..n][j] == items[j];
      assert RaisesAt(call, items, parseFloat, rule, j);
    }
  }

  lemma {:induction false} CauseFails(call: Call, items: seq<Item>, parseFloat: string -> Option<real>, rule: PriorityRule, j: int)
    requires RaisesAt(call, items, parseFloat, rule, j)
    ensures Planned(call, items, parseFloat, rule).None?
  {
    var n := |items| - 1;
    PlannedPrefix(call, items, n, parseFloat, rule);
    assert items[..n + 1] == items;
    ghost var o := Outcome(call, n, items[n], parseFloat, rule);
    ghost var before := Planned(call, items[..n], parseFloat, rule);
    assert Planned(call, items, parseFloat, rule) == PlanStep(before, n, o);
    if j < n {
      assert items[..n][j] == items[j];
      CauseFails(call, items[..n], parseFloat, rule, j);
      assert before == None;
    } else {
      assert j == n;
      assert o == Raises;
    }
  }

  /** A call raises exactly when one of its items does. */
  lemma PlannedRaises(call: Call, items: seq<Item>, parseFloat: string -> Option<real>, rule: PriorityRule)
    ensures Planned(call, items, parseFloat, rule).None? <==> exists j :: RaisesAt(call, items, parseFloat, rule, j)
  {
    if Planned(call, items, parseFloat, rule).None? {
      FailureHasCause(call, items, parseFloat, rule);
    }
    forall j | RaisesAt(call, items, parseFloat, rule, j) ensures Planned(call, items, parseFloat, rule).None? {
      CauseFails(call, items, parseFloat, rule, j);
    }
  }

  /** Every planned row is the row of its item. */
  predicate RowsKept(ins: seq<Insert>, call: Call, items: seq<Item>, parseFloat: string -> Option<real>, rule: PriorityRule)
  {
    forall k | 0 <= k < |ins| ::
      ins[k].index < |items| && Outcome(call, ins[k].index, items[ins[k].index], parseFloat, rule) == Kept(ins[k].qgid, ins[k].row)
  }

  /** The planned rows are in item order. */
  predicate InItemOrder(ins: seq<Insert>)
  {
    forall k, l | 0 <= k < l < |ins| :: ins[k].index < ins[l].index
  }

  /** Every kept item has a planned row. */
  predicate RowsComplete(ins: seq<Insert>, call: Call, items: seq<Item>, parseFloat: string -> Option<real>, rule: PriorityRule)
  {
    forall j | 0 <= j < |items| && Outcome(call, j, items[j], parseFloat, rule).Kept? :: HasRow(ins, j)
  }

  predicate HasRow(ins: seq<Insert>, j: nat)
  {
    exists k | 0 <= k < |ins| :: ins[k].index == j
  }

  /** The plan lists one row per kept item, in item order, and nothing else. */
  lemma {:induction false} PlannedRows(call: Call, items: seq<Item>, parseFloat: string -> Option<real>, rule: PriorityRule)
    requires Planned(call, items, parseFloat, rule).Some?
    ensures var ins := Planned(call, items, parseFloat, rule).value;
            RowsKept(ins, call, items, parseFloat, rule) && InItemOrder(ins) && RowsComplete(ins, call, items, parseFloat, rule)
  {
    if items != [] {
      var n := |items| - 1;
      var init := items[..n];
      var o := Outcome(call, n, items[n], parseFloat, rule);
      PlannedRows(call, init, parseFloat, rule);
      var before := Planned(call, init, parseFloat, rule).value;
      RowsKeptExtend(before, call, items, parseFloat, rule);
      if o.Kept? {
        var x := Insert(n, o.qgid, o.row);
        assert Planned(call, items, parseFloat, rule).value == before + [x];
        RowsKeptSnoc(before, x, call, items, parseFloat, rule);
        OrderSnoc(before, x, n);
        CompleteSnoc(before, x, call, items, parseFloat, rule);
      } else {
        assert Planned(call, items, parseFloat, rule).value == before;
        CompleteSame(before, call, items, parseFloat, rule);
      }
    }
  }

  lemma RowsKeptExtend(before: seq<Insert>, call: Call, items: seq<Item>, parseFloat: string -> Option<real>, rule: PriorityRule)
    requires items != [] && RowsKept(before, call, items[..|items| - 1], parseFloat, rule)
    ensures RowsKept(before, call, items, parseFloat, rule)
  {
    var n := |items| - 1;
    forall k | 0 <= k < |before|
      ensures before[k].index < |items| && Outcome(call, before[k].index, items[before[k].index], parseFloat, rule) == Kept(before[k].qgid, before[k].row)
    {
      assert items[..n][before[k].index] == items[before[k].index];
    }
  }

  lemma RowsKeptSnoc(before: seq<Insert>, x: Insert, call: Call, items: seq<Item>,
                     parseFloat: string -> Option<real>, rule: PriorityRule)
    requires x.index < |items| && Outcome(call, x.index, items[x.index], parseFloat, rule) == Kept(x.qgid, x.row)
    requires RowsKept(before, call, items, parseFloat, rule)
    ensures RowsKept(before + [x], call, items, parseFloat, rule)
  {
    var ins := before + [x];
    forall k | 0 <= k < |ins|
      ensures ins[k].index < |items| && Outcome(call, ins[k].index, items[ins[k].index], parseFloat, rule) == Kept(ins[k].qgid, ins[k].row)
    {
      if k < |before| {
        assert ins[k] == before[k];
      }
    }
  }

  lemma OrderSnoc(before: seq<Insert>, x: Insert, n: nat)
    requires InItemOrder(before) && forall k | 0 <= k < |before| :: before[k].index < n
    requires x.index == n
    ensures InItemOrder(before + [x])
  {
  }

  lemma CompleteSnoc(before: seq<Insert>, x: Insert, call: Call, items: seq<Item>,
                     parseFloat: string -> Option<real>, rule: PriorityRule)
    requires items != [] && x.index == |items| - 1
    requires RowsComplete(before, call, items[..|items| - 1], parseFloat, rule)
    ensures RowsComplete(before + [x], call, items, parseFloat, rule)
  {
    var n := |items| - 1;
    var ins := before + [x];
    forall j | 0 <= j < |items| && Outcome(call, j, items[j], parseFloat, rule).Kept?
      ensures HasRow(ins, j)
    {
      if j < n {
        assert items[..n][j] == items[j];
        assert HasRow(before, j);
        var k :| 0 <= k < |before| && before[k].index == j;
        assert ins[k].index == j;
      } else {
        assert ins[|before|].index == j;
      }
    }
  }

  lemma CompleteSame(before: seq<Insert>, call: Call, items: seq<Item>, parseFloat: string -> Option<real>, rule: PriorityRule)
    requires items != [] && !Outcome(call, |items| - 1, items[|items| - 1], parseFloat, rule).Kept?
    requires RowsComplete(before, call, items[..|items| - 1], parseFloat, rule)
    ensures RowsComplete(before, call, items, parseFloat, rule)
  {
    var n := |items| - 1;
    forall j | 0 <= j < |items| && Outcome(call, j, items[j], parseFloat, rule).Kept?
      ensures HasRow(before, j)
    {
      if j == n {
        assert false;
      }
      assert items[..n][j] == items[j];
    }
  }

  // ---- keys ----

  /** Within one call the keys of different items differ, as the PRIMARY KEY requires. */
  lemma QgidItemInjective(stamp: string, chunkIndex: nat, i: nat, j: nat)
    requires Qgid(stamp, chunkIndex, i) == Qgid(stamp, chunkIndex, j)
    ensures i == j
  {
    assert (stamp + Pad2(chunkIndex)) + Pad2(i) == (stamp + Pad2(chunkIndex)) + Pad2(j);
    PrefixCancel(stamp + Pad2(chunkIndex), Pad2(i), Pad2(j));
    Pad2Injective(i, j);
  }

  /** The planned rows of one call have pairwise distinct keys. */
  lemma PlannedKeysDistinct(call: Call, items: seq<Item>, parseFloat: string -> Option<real>, rule: PriorityRule)
    requires Planned(call, items, parseFloat, rule).Some?
    ensures var ins := Planned(call, items, parseFloat, rule).value;
            forall k, l | 0 <= k < l < |ins| :: ins[k].qgid != ins[l].qgid
  {
    var ins := Planned(call, items, parseFloat, rule).value;
    PlannedRows(call, items, parseFloat, rule);
    forall k, l | 0 <= k < l < |ins| ensures ins[k].qgid != ins[l].qgid {
      if ins[k].qgid == ins[l].qgid {
        assert Outcome(call, ins[k].index, items[ins[k].index], parseFloat, rule).Kept?;
        assert Outcome(call, ins[l].index, items[ins[l].index], parseFloat, rule).Kept?;
        QgidItemInjective(call.stamp, call.chunkIndex, ins[k].index, ins[l].index);
      }
    }
  }

  /** With both indexes below 100 the key has four index digits and determines both indexes. */
  lemma QgidInjective(stamp: string, c1: nat, i1: nat, c2: nat, i2: nat)
    requires c1 < 100 && i1 < 100 && c2 < 100 && i2 < 100
    ensures |Qgid(stamp, c1, i1)| == |stamp| + 4
    ensures Qgid(stamp, c1, i1) == Qgid(stamp, c2, i2) <==> c1 == c2 && i1 == i2
  {
    if Qgid(stamp, c1, i1) == Qgid(stamp, c2, i2) {
      var a, b := Qgid(stamp, c1, i1), Qgid(stamp, c2, i2);
      assert a[|stamp|..|stamp| + 2] == Pad2(c1);
      assert b[|stamp|..|stamp| + 2] == Pad2(c2);
      assert a[|stamp| + 2..] == Pad2(i1);
      assert b[|stamp| + 2..] == Pad2(i2);
      Pad2Injective(c1, c2);
      Pad2Injective(i1, i2);
    }
  }

  /** From index 100 on, keys of different chunks can coincide: chunk 10 item 100 and chunk 101 item 0. */
  lemma QgidCollision(stamp: string)
    ensures Qgid(stamp, 10, 100) == Qgid(stamp, 101, 0)
  {
    assert NatToString(10) == "10";
    assert NatToString(100) == "100";
    assert NatToString(101) == "101";
    assert Pad2(0) == "00";
  }

  // ---- the committed table ----

  /** None of the planned keys is in the table yet. */
  predicate Fresh(ins: seq<Insert>, table: map<string, Row>)
  {
    forall k | 0 <= k < |ins| :: ins[k].qgid !in table
  }

  lemma {:induction false} AsMapKeys(ins: seq<Insert>, key: string)
    ensures key in AsMap(ins) <==> exists k | 0 <= k < |ins| :: ins[k].qgid == key
  {
    if ins != [] {
      var init := ins[..|ins| - 1];
      AsMapKeys(init, key);
      if key in AsMap(init) {
        var k :| 0 <= k < |init| && init[k].qgid == key;
        assert ins[k].qgid == key;
      }
      if exists k | 0 <= k < |ins| :: ins[k].qgid == key {
        var k :| 0 <= k < |ins| && ins[k].qgid == key;
        if k < |init| {
          assert init[k].qgid == key;
        }
      }
    }
  }

  lemma KeptKey(call: Call, i: nat, item: Item, parseFloat: string -> Option<real>, rule: PriorityRule)
    requires Outcome(call, i, item, parseFloat, rule).Kept?
    ensures Outcome(call, i, item, parseFloat, rule).qgid == Qgid(call.stamp, call.chunkIndex, i)
  {
  }

  /** The key of item `n` is not among the planned keys of the items before it. */
  lemma NewKey(call: Call, items: seq<Item>, parseFloat: string -> Option<real>, rule: PriorityRule, n: nat)
    requires Planned(call, items, parseFloat, rule).Some? && n >= |items|
    ensures Qgid(call.stamp, call.chunkIndex, n) !in AsMap(Planned(call, items, parseFloat, rule).value)
  {
    var ins := Planned(call, items, parseFloat, rule).value;
    var key := Qgid(call.stamp, call.chunkIndex, n);
    PlannedRows(call, items, parseFloat, rule);
    AsMapKeys(ins, key);
    if key in AsMap(ins) {
      var k :| 0 <= k < |ins| && ins[k].qgid == key;
      var idx := ins[k].index;
      assert Outcome(call, idx, items[idx], parseFloat, rule) == Kept(ins[k].qgid, ins[k].row);
      KeptKey(call, idx, items[idx], parseFloat, rule);
      QgidItemInjective(call.stamp, call.chunkIndex, idx, n);
    }
  }

  /**
   * Inserting the items one by one, with the PRIMARY KEY check, ends in the table plus the
   * planned rows when no item raises and no planned key is taken; otherwise the call raises.
   */
  lemma {:induction false} InsertedIsPlanned(table: map<string, Row>, call: Call, items: seq<Item>,
                                            parseFloat: string -> Option<real>, rule: PriorityRule)
    ensures var p := Planned(call, items, parseFloat, rule);
            Inserted(table, call, items, parseFloat, rule) ==
            if p.Some? && Fresh(p.value, table) then Some(table + AsMap(p.value)) else None
  {
    if items != [] {
      var n := |items| - 1;
      var init := items[..n];
      InsertedIsPlanned(table, call, init, parseFloat, rule);
      var o := Outcome(call, n, items[n], parseFloat, rule);
      var before := Planned(call, init, parseFloat, rule);
      assert Planned(call, items, parseFloat, rule) == PlanStep(before, n, o);
      assert Inserted(table, call, items, parseFloat, rule) == InsertStep(Inserted(table, call, init, parseFloat, rule), o);
      if before.Some? && o.Kept? {
        KeptKey(call, n, items[n], parseFloat, rule);
        NewKey(call, init, parseFloat, rule, n);
      }
      StepAgrees(table, before, n, o, Inserted(table, call, init, parseFloat, rule));
    } else {
      assert table + AsMap([]) == table;
    }
  }

  /** One step of the insertion agrees with one step of the plan, given a key not planned before. */
  lemma StepAgrees(table: map<string, Row>, before: Option<seq<Insert>>, n: nat, o: ItemOutcome,
                   inserted: Option<map<string, Row>>)
    requires inserted == if before.Some? && Fresh(before.value, table) then Some(table + AsMap(before.value)) else None
    requires o.Kept? && before.Some? ==> o.qgid !in AsMap(before.value)
    ensures var p := PlanStep(before, n, o);
            InsertStep(inserted, o) == if p.Some? && Fresh(p.value, table) then Some(table + AsMap(p.value)) else None
  {
    if before.Some? && o.Kept? {
      KeptStepAgrees(table, before.value, Insert(n, o.qgid, o.row), inserted);
    }
  }

  lemma KeptStepAgrees(table: map<string, Row>, b: seq<Insert>, x: Insert, inserted: Option<map<string, Row>>)
    requires inserted == if Fresh(b, table) then Some(table + AsMap(b)) else None
    requires x.qgid !in AsMap(b)
    ensures InsertStep(inserted, Kept(x.qgid, x.row)) ==
            if Fresh(b + [x], table) then Some(table + AsMap(b + [x])) else None
  {
    assert AsMap(b + [x]) == AsMap(b)[x.qgid := x.row] by {
      assert (b + [x])[..|b|] == b;
    }
    if !Fresh(b, table) {
      var k :| 0 <= k < |b| && b[k].qgid in table;
      assert (b + [x])[k].qgid in table;
    } else if x.qgid in table {
      assert (b + [x])[|b|].qgid in table;
    } else {
      FreshSnoc(b, x, table);
      assert (table + AsMap(b))[x.qgid := x.row] == table + AsMap(b)[x.qgid := x.row];
    }
  }

  lemma FreshSnoc(b: seq<Insert>, x: Insert, table: map<string, Row>)
    requires Fresh(b, table) && x.qgid !in table
    ensures Fresh(b + [x], table)
  {
    forall k | 0 <= k < |b| + 1 ensures (b + [x])[k].qgid !in table {
      if k < |b| {
        assert (b + [x])[k] == b[k];
      }
    }
  }

  /** Each key of a plan's map holds the row of some planned insert with that key. */
  lemma {:induction false} AsMapValue(ins: seq<Insert>, key: string)
    requires key in AsMap(ins)
    ensures exists k | 0 <= k < |ins| :: ins[k].qgid == key && ins[k].row == AsMap(ins)[key]
  {
    var n := |ins| - 1;
    if ins[n].qgid == key {
      assert ins[n].row == AsMap(ins)[key];
    } else {
      var init := ins[..n];
      assert AsMap(ins)[key] == AsMap(init)[key];
      AsMapValue(init, key);
      var k :| 0 <= k < |init| && init[k].qgid == key && init[k].row == AsMap(init)[key];
      assert ins[k] == init[k];
    }
  }

  /**
   * A committed call keeps every row already in the table, and every row it adds belongs to
   * the call: its video, its transcript piece and its chunk index.
   */
  lemma InsertedExtends(table: map<string, Row>, call: Call, items: seq<Item>,
                        parseFloat: string -> Option<real>, rule: PriorityRule)
    requires Inserted(table, call, items, parseFloat, rule).Some?
    ensures var t := Inserted(table, call, items, parseFloat, rule).value;
            && (forall key | key in table :: key in t && t[key] == table[key])
            && (forall key | key in t && key !in table ::
                  t[key].videoId == call.videoId && t[key].voiceChunk == call.voice && t[key].chunkIndex == call.chunkIndex)
  {
    InsertedIsPlanned(table, call, items, parseFloat, rule);
    var ins := Planned(call, items, parseFloat, rule).value;
    var t := Inserted(table, call, items, parseFloat, rule).value;
    assert Fresh(ins, table) && t == table + AsMap(ins);
    forall key | key in table ensures key in t && t[key] == table[key] {
      AsMapKeys(ins, key);
    }
    PlannedRows(call, items, parseFloat, rule);
    forall key | key in t && key !in table
      ensures t[key].videoId == call.videoId && t[key].voiceChunk == call.voice && t[key].chunkIndex == call.chunkIndex
    {
      AsMapValue(ins, key);
      var k :| 0 <= k < |ins| && ins[k].qgid == key && ins[k].row == AsMap(ins)[key];
      var idx := ins[k].index;
      assert Outcome(call, idx, items[idx], parseFloat, rule) == Kept(ins[k].qgid, ins[k].row);
      KeptRow(call, idx, items[idx], parseFloat, rule);
    }
  }
}
