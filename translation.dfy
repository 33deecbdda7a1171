/** Translation of raw journal entries into events: the priority-to-severity
    bands and the entry-to-event record construction. */
module Translation {
  import opened Events

  /** The PRIORITY field as a number the mapping's comparisons accept: an
      int, a float, or a bool (which compares as 0 or 1). */
  function PriorityOf(e: Entry): Option<real> {
    match Get(e, PriorityField)
    case Some(VInt(i)) => Some(i as real)
    case Some(VFloat(f)) => Some(f)
    case Some(VBool(b)) => Some(if b then 1.0 else 0.0)
    case _ => None
  }

  function MapPriorityToSeverity(priority: Option<real>): (s: Severity)
    ensures s != Critical
    ensures priority.None? ==> s == Info
  {
    if priority.None? then Info
    else if priority.value <= 3.0 then Error
    else if priority.value == 4.0 then Warning
    else if priority.value <= 6.0 then Info
    else Debug
  }

  /** A more urgent integer priority (a smaller number) never yields a less
      severe event. Fractional priorities break this: 3.5 falls to INFO while
      4 gives WARNING. */
  lemma SeverityMonotone(p: int, q: int)
    requires p <= q
    ensures MapPriorityToSeverity(Some(q as real)).Rank() <= MapPriorityToSeverity(Some(p as real)).Rank()
  {
  }

  /** The syslog bands 0-3, 4, 5-6 and 7 and what lies outside them. */
  lemma SeverityBands(p: int)
    ensures 0 <= p <= 3 ==> MapPriorityToSeverity(Some(p as real)) == Error
    ensures p == 4 ==> MapPriorityToSeverity(Some(p as real)) == Warning
    ensures 5 <= p <= 6 ==> MapPriorityToSeverity(Some(p as real)) == Info
    ensures p == 7 ==> MapPriorityToSeverity(Some(p as real)) == Debug
    ensures p < 0 ==> MapPriorityToSeverity(Some(p as real)) == Error
    ensures p > 7 ==> MapPriorityToSeverity(Some(p as real)) == Debug
  {
  }

  /** `SYSLOG_IDENTIFIER or _SYSTEMD_UNIT or 'unknown'` */
  function Subsystem(e: Entry): (v: Value)
    ensures Truthy(v)
    ensures IdentifierField in e && Truthy(e[IdentifierField]) ==> v == e[IdentifierField]
    ensures !(IdentifierField in e && Truthy(e[IdentifierField])) && UnitField in e && Truthy(e[UnitField])
            ==> v == e[UnitField]
    ensures !(IdentifierField in e && Truthy(e[IdentifierField])) && !(UnitField in e && Truthy(e[UnitField]))
            ==> v == VStr("unknown")
  {
    if IdentifierField in e && Truthy(e[IdentifierField]) then e[IdentifierField]
    else if UnitField in e && Truthy(e[UnitField]) then e[UnitField]
    else VStr("unknown")
  }

  /** The entry restricted to its scalar fields. */
  function StructuredData(e: Entry): (m: map<string, Value>)
    ensures m.Keys <= e.Keys
    ensures forall k :: k in m ==> m[k] == e[k] && IsScalar(m[k])
    ensures forall k :: k in e && IsScalar(e[k]) ==> k in m
  {
    map k | k in e && IsScalar(e[k]) :: e[k]
  }

  /** The message as it goes into the event: bytes are decoded by `decode`
      (UTF-8 with replacement in the source), anything else is kept. */
  function MessageText(v: Value, decode: Bytes -> string): (r: Value)
    ensures !r.VBytes?
    ensures v.VBytes? ==> r == VStr(decode(v.bytes))
    ensures !v.VBytes? ==> r == v
  {
    if v.VBytes? then VStr(decode(v.bytes)) else v
  }

  /** The event for one entry, or None when the entry has no usable message. */
  function EntryToEvent(e: Entry, decode: Bytes -> string): (r: Option<LogEvent>)
    ensures r.None? <==> !(MessageField in e && Truthy(e[MessageField]))
    ensures r.Some? ==>
      && r.value.source == "systemd"
      && r.value.severity == MapPriorityToSeverity(PriorityOf(e))
      && r.value.timestamp == Get(e, TimestampField)
      && r.value.subsystem == Subsystem(e)
      && r.value.rawMessage == MessageText(e[MessageField], decode)
      && r.value.structuredData == StructuredData(e)
  {
    var msg := Get(e, MessageField);
    if msg.None? || !Truthy(msg.value) then None
    else
      Some(LogEvent(
        "systemd",
        MapPriorityToSeverity(PriorityOf(e)),
        Get(e, TimestampField),
        Subsystem(e),
        MessageText(msg.value, decode),
        StructuredData(e)))
  }

  function OptionToSeq<T>(o: Option<T>): seq<T> {
    if o.Some? then [o.value] else []
  }

  /** The events of a run of entries, in journal order, skipping the entries
      that translate to None. */
  function TranslateAll(es: seq<Entry>, decode: Bytes -> string): (r: seq<LogEvent>)
    ensures |r| <= |es|
  {
    if es == [] then []
    else TranslateAll(es[..|es| - 1], decode) + OptionToSeq(EntryToEvent(es[|es| - 1], decode))
  }

  /** Every event of a run is the translation of one of its entries. */
  lemma {:induction false} TranslateAllFromEntries(es: seq<Entry>, decode: Bytes -> string, ev: LogEvent) returns (i: nat)
    requires ev in TranslateAll(es, decode)
    ensures i < |es| && EntryToEvent(es[i], decode) == Some(ev)
  {
    var es' := es[..|es| - 1];
    if ev in TranslateAll(es', decode) {
      i := TranslateAllFromEntries(es', decode, ev);
      assert es[i] == es'[i];
    } else {
      i := |es| - 1;
    }
  }

  /** Reading one more entry of a run adds that entry's event, if any. */
  lemma TranslateAllStep(es: seq<Entry>, i: nat, decode: Bytes -> string)
    requires i < |es|
    ensures TranslateAll(es[..i + 1], decode) == TranslateAll(es[..i], decode) + OptionToSeq(EntryToEvent(es[i], decode))
  {
    assert es[..i + 1][..i] == es[..i];
  }

  /** Translation distributes over concatenation of entry runs. */
  lemma {:induction false} TranslateAllConcat(a: seq<Entry>, b: seq<Entry>, decode: Bytes -> string)
    ensures TranslateAll(a + b, decode) == TranslateAll(a, decode) + TranslateAll(b, decode)
    decreases |b|
  {
    if b == [] {
      assert a + b == a;
    } else {
      var b' := b[..|b| - 1];
      assert (a + b)[..|a + b| - 1] == a + b';
      assert (a + b)[|a + b| - 1] == b[|b| - 1];
      TranslateAllConcat(a, b', decode);
    }
  }

  /** No event comes out of a run exactly when every entry of it lacks a message. */
  lemma {:induction false} TranslateAllEmpty(es: seq<Entry>, decode: Bytes -> string)
    ensures TranslateAll(es, decode) == [] <==> forall i :: 0 <= i < |es| ==> EntryToEvent(es[i], decode).None?
  {
    if es != [] {
      var es' := es[..|es| - 1];
      TranslateAllEmpty(es', decode);
      if TranslateAll(es, decode) == [] {
        forall i | 0 <= i < |es| ensures EntryToEvent(es[i], decode).None? {
          if i < |es| - 1 { assert es[i] == es'[i]; }
        }
      } else if EntryToEvent(es[|es| - 1], decode).None? {
        var i :| 0 <= i < |es'| && EntryToEvent(es'[i], decode).Some?;
        assert es[i] == es'[i];
      }
    }
  }

  /** One entry gives its own event, or nothing. */
  lemma TranslateAllSingle(e: Entry, decode: Bytes -> string)
    ensures TranslateAll([e], decode) == OptionToSeq(EntryToEvent(e, decode))
  {
    assert [e][..0] == [];
  }

  /** A run that produces nothing adds nothing between an entry and what
      follows it. */
  lemma SilentRunSkipped(e: Entry, rest: seq<Entry>, more: seq<Entry>, decode: Bytes -> string)
    requires TranslateAll(rest, decode) == []
    ensures TranslateAll([e] + (rest + more), decode) == OptionToSeq(EntryToEvent(e, decode)) + TranslateAll(more, decode)
  {
    var head := TranslateAll([e], decode);
    var tail := TranslateAll(rest + more, decode);
    assert head == OptionToSeq(EntryToEvent(e, decode)) by {
      TranslateAllSingle(e, decode);
    }
    assert tail == TranslateAll(more, decode) by {
      TranslateAllConcat(rest, more, decode);
    }
    TranslateAllConcat([e], rest + more, decode);
  }
}
