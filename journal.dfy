/** The journal as this core sees it through its reader: an append-only
    sequence of entries, an optional boot filter (`this_boot`), and a read
    position. The journal itself is passed in as it stands at each call. */
module Journal {
  import opened Events

  /** A reader: the boot it is restricted to, if any, and the index in its
      view of the entry the next forward read returns. */
  datatype Reader = Reader(boot: Option<Value>, pos: nat)

  /** A fresh reader: no filter, at the head. */
  const FreshReader := Reader(None, 0)

  predicate InView(e: Entry, boot: Option<Value>) {
    boot.None? || (BootField in e && e[BootField] == boot.value)
  }

  /** The entries a reader with the given filter sees, in journal order. */
  function View(log: seq<Entry>, boot: Option<Value>): (v: seq<Entry>)
    ensures |v| <= |log|
    ensures boot.None? ==> v == log
  {
    if log == [] then []
    else
      var last := log[|log| - 1];
      View(log[..|log| - 1], boot) + (if InView(last, boot) then [last] else [])
  }

  /** A view holds exactly the journal's entries that its filter lets through. */
  lemma {:induction false} ViewKeeps(log: seq<Entry>, boot: Option<Value>)
    ensures forall e :: e in View(log, boot) <==> e in log && InView(e, boot)
  {
    if log != [] {
      var init := log[..|log| - 1];
      ViewKeeps(init, boot);
      assert log == init + [log[|log| - 1]];
    }
  }

  /** Entries appended to the journal are appended to every view of it. */
  lemma {:induction false} ViewAppend(a: seq<Entry>, b: seq<Entry>, boot: Option<Value>)
    ensures View(a + b, boot) == View(a, boot) + View(b, boot)
    decreases |b|
  {
    if b == [] {
      assert a + b == a;
    } else {
      assert (a + b)[..|a + b| - 1] == a + b[..|b| - 1];
      ViewAppend(a, b[..|b| - 1], boot);
    }
  }

  /** A view of entries the filter lets none of through is empty. */
  lemma {:induction false} ViewNone(log: seq<Entry>, boot: Option<Value>)
    requires forall j :: 0 <= j < |log| ==> !InView(log[j], boot)
    ensures View(log, boot) == []
  {
    if log != [] {
      var init := log[..|log| - 1];
      assert forall j :: 0 <= j < |init| ==> init[j] == log[j];
      ViewNone(init, boot);
    }
  }

  /** The first entry a filter lets through is the head of the view. */
  lemma {:induction false} ViewHead(log: seq<Entry>, boot: Option<Value>, k: nat)
    requires k < |log| && InView(log[k], boot)
    requires forall j :: 0 <= j < k ==> !InView(log[j], boot)
    ensures View(log, boot) != [] && View(log, boot)[0] == log[k]
  {
    var init := log[..|log| - 1];
    if k < |log| - 1 {
      ViewHead(init, boot, k);
    } else {
      ViewNone(init, boot);
    }
  }

  /** What iterating the reader yields now: the rest of its view. The
      entries before the position and those available make up the view. */
  function Available(log: seq<Entry>, r: Reader): (a: seq<Entry>)
    ensures r.pos <= |View(log, r.boot)| ==> View(log, r.boot)[..r.pos] + a == View(log, r.boot)
    ensures r.pos >= |View(log, r.boot)| ==> a == []
  {
    var v := View(log, r.boot);
    if r.pos <= |v| then v[r.pos..] else []
  }

  /** The reader after iterating to the end of what is available: it keeps
      its filter, has nothing left to read, and later yields exactly the
      entries appended to the journal that its filter lets through. */
  function Drained(log: seq<Entry>, r: Reader): (d: Reader)
    ensures d.boot == r.boot && Available(log, d) == []
    ensures forall more :: Available(log + more, d) == View(more, r.boot)
  {
    var d := r.(pos := |View(log, r.boot)|);
    assert forall more :: Available(log + more, d) == View(more, r.boot) by {
      forall more ensures Available(log + more, d) == View(more, r.boot) {
        ViewAppend(log, more, r.boot);
        assert (View(log, r.boot) + View(more, r.boot))[|View(log, r.boot)|..] == View(more, r.boot);
      }
    }
    d
  }

  /** The entry's realtime timestamp, when it carries one. */
  function TimeOf(e: Entry): Option<real> {
    match Get(e, TimestampField)
    case Some(VTime(t)) => Some(t)
    case _ => None
  }

  /** The entry's cursor token, when it carries one. */
  function CursorOf(e: Entry): Option<string> {
    match Get(e, CursorField)
    case Some(VStr(c)) => Some(c)
    case _ => None
  }

  /** Where seeking to cursor `c` lands: the first entry of the view that
      carries `c`; None when no entry does (the seek fails). */
  function FindCursor(view: seq<Entry>, c: string): (k: Option<nat>)
    ensures k.Some? ==> k.value < |view| && CursorOf(view[k.value]) == Some(c)
    ensures k.Some? ==> forall j :: 0 <= j < k.value ==> CursorOf(view[j]) != Some(c)
    ensures k.None? ==> forall j :: 0 <= j < |view| ==> CursorOf(view[j]) != Some(c)
  {
    if view == [] then None
    else if CursorOf(view[0]) == Some(c) then Some(0)
    else
      var k := FindCursor(view[1..], c);
      if k.Some? then Some(k.value + 1) else None
  }

  /** Entries appended after the one a cursor names do not move the seek. */
  lemma FindCursorExtend(a: seq<Entry>, b: seq<Entry>, c: string)
    requires FindCursor(a, c).Some?
    ensures FindCursor(a + b, c) == FindCursor(a, c)
  {
    var k := FindCursor(a, c).value;
    var k' := FindCursor(a + b, c);
    assert (a + b)[k] == a[k];
  }

  /** `get_next()` right after `seek_head()`: the first entry, or `{}`. */
  function FirstEntry(view: seq<Entry>): Entry {
    if view == [] then map[] else view[0]
  }

  /** `get_previous()` right after `seek_tail()`: the last entry, or `{}`. */
  function LastEntry(view: seq<Entry>): Entry {
    if view == [] then map[] else view[|view| - 1]
  }
}
