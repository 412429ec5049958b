/**
 Trace events and the ordering the mint, burn, creation and Subfrost decoders
 put them in: ascending vout, invokes before returns before the rest, otherwise
 in the order of arrival.
 */
module Events {
  import opened Options
  import opened Tokens

  const I64_MIN: int := -0x8000_0000_0000_0000
  type i64 = v: int | I64_MIN <= v <= 0x7FFF_FFFF_FFFF_FFFF witness 0

  datatype EventType = Invoke | Return | OtherType

  /**
   One event with the fields the decoders read. A missing address is "", a
   missing list is [], an input that is no string is None.
   */
  datatype Event = Event(
    vout: Option<i64>,
    eventType: EventType,
    target: Token,                  // alkaneAddressBlock, alkaneAddressTx
    callType: string,               // data.type
    inputs: seq<Option<string>>,    // data.context.inputs
    incoming: seq<Alkane>,          // data.context.incomingAlkanes
    status: string,                 // data.status
    outgoing: seq<Alkane>)          // data.response.alkanes

  function SortVout(e: Event): i64 {
    e.vout.GetOr(I64_MIN)
  }

  function Weight(e: Event): nat {
    match e.eventType
    case Invoke => 0
    case Return => 1
    case OtherType => 2
  }

  /** The comparator handed to `sort_by`: a may stand before b. */
  predicate NotAfter(a: Event, b: Event) {
    if SortVout(a) != SortVout(b) then SortVout(a) < SortVout(b) else Weight(a) <= Weight(b)
  }

  predicate SameClass(a: Event, b: Event) {
    SortVout(a) == SortVout(b) && Weight(a) == Weight(b)
  }

  /** Insert e before the first event it may stand before, hence before its equals. */
  function Insert(e: Event, es: seq<Event>): seq<Event> {
    if es == [] || NotAfter(e, es[0]) then [e] + es
    else [es[0]] + Insert(e, es[1..])
  }

  /** The stable sort. */
  function Ordered(es: seq<Event>): seq<Event> {
    if es == [] then [] else Insert(es[0], Ordered(es[1..]))
  }

  predicate Sorted(es: seq<Event>) {
    forall i, j | 0 <= i < j < |es| :: NotAfter(es[i], es[j])
  }

  /** The events of one class, in order. */
  function ClassOf(es: seq<Event>, c: Event): seq<Event> {
    if es == [] then []
    else (if SameClass(es[0], c) then [es[0]] else []) + ClassOf(es[1..], c)
  }

  /** One list is the other reordered without touching the order inside any class. */
  ghost predicate Reordering(es: seq<Event>, fs: seq<Event>) {
    forall c: Event :: ClassOf(es, c) == ClassOf(fs, c)
  }

  // The sort is sorted, stable and determined by its classes

  lemma {:induction false} InsertClasses(e: Event, es: seq<Event>, c: Event)
    ensures ClassOf(Insert(e, es), c) == ClassOf([e] + es, c)
  {
    assert ([e] + es)[1..] == es;
    if es != [] && !NotAfter(e, es[0]) {
      InsertClasses(e, es[1..], c);
      assert ([e] + es[1..])[1..] == es[1..];
      assert Insert(e, es)[1..] == Insert(e, es[1..]);
    }
  }

  lemma {:induction false} InsertKeepsEvents(e: Event, es: seq<Event>)
    ensures multiset(Insert(e, es)) == multiset(es) + multiset{e}
  {
    if es != [] && !NotAfter(e, es[0]) {
      InsertKeepsEvents(e, es[1..]);
      assert es == [es[0]] + es[1..];
    }
  }

  lemma {:induction false} InsertSorted(e: Event, es: seq<Event>)
    requires Sorted(es)
    ensures Sorted(Insert(e, es))
  {
    if es != [] && !NotAfter(e, es[0]) {
      var rest := Insert(e, es[1..]);
      InsertSorted(e, es[1..]);
      InsertKeepsEvents(e, es[1..]);
      forall k | 0 <= k < |rest|
        ensures NotAfter(es[0], rest[k])
      {
        assert rest[k] in multiset(es[1..]) + multiset{e};
        assert rest[k] == e || rest[k] in es[1..];
      }
    }
  }

  lemma {:induction false} OrderedIsStableSort(es: seq<Event>)
    ensures Sorted(Ordered(es))
    ensures multiset(Ordered(es)) == multiset(es)
    ensures Reordering(Ordered(es), es)
  {
    if es != [] {
      OrderedIsStableSort(es[1..]);
      InsertSorted(es[0], Ordered(es[1..]));
      InsertKeepsEvents(es[0], Ordered(es[1..]));
      assert es == [es[0]] + es[1..];
      forall c: Event
        ensures ClassOf(Ordered(es), c) == ClassOf(es, c)
      {
        InsertClasses(es[0], Ordered(es[1..]), c);
        assert ([es[0]] + Ordered(es[1..]))[1..] == Ordered(es[1..]);
      }
    }
  }

  lemma {:induction false} ClassHasMember(es: seq<Event>, k: nat)
    requires k < |es|
    ensures ClassOf(es, es[k]) != []
  {
    if k > 0 {
      ClassHasMember(es[1..], k - 1);
    }
  }

  lemma {:induction false} ClassMember(es: seq<Event>, c: Event)
    requires ClassOf(es, c) != []
    ensures exists k | 0 <= k < |es| :: SameClass(es[k], c)
  {
    if !SameClass(es[0], c) {
      ClassMember(es[1..], c);
      var k :| 0 <= k < |es[1..]| && SameClass(es[1..][k], c);
      assert SameClass(es[k + 1], c);
    } else {
      assert SameClass(es[0], c);
    }
  }

  /** A sorted list starts with the least class that occurs in it. */
  lemma HeadIsLeast(es: seq<Event>, c: Event)
    requires es != [] && Sorted(es) && ClassOf(es, c) != []
    ensures NotAfter(es[0], c)
  {
    ClassMember(es, c);
    var k :| 0 <= k < |es| && SameClass(es[k], c);
    assert k == 0 || NotAfter(es[0], es[k]);
  }

  lemma ReorderedNonEmpty(s: seq<Event>, t: seq<Event>)
    requires Reordering(s, t) && (s != [] || t != [])
    ensures s != [] && t != []
  {
    var c := if s != [] then s[0] else t[0];
    if s != [] { ClassHasMember(s, 0); } else { ClassHasMember(t, 0); }
    assert ClassOf(s, c) == ClassOf(t, c);
  }

  /** Two sorted lists with the same classes are the same list. */
  lemma {:induction false} SortedReorderingsAgree(s: seq<Event>, t: seq<Event>)
    requires Sorted(s) && Sorted(t) && Reordering(s, t)
    ensures s == t
  {
    if s != [] || t != [] {
      ReorderedNonEmpty(s, t);
      ClassHasMember(s, 0);
      assert ClassOf(t, s[0]) == ClassOf(s, s[0]);
      ClassHasMember(t, 0);
      HeadIsLeast(t, s[0]);
      HeadIsLeast(s, t[0]);
      assert SameClass(s[0], t[0]);
      assert ClassOf(s, s[0])[0] == s[0] && ClassOf(t, s[0])[0] == t[0];
      forall c: Event
        ensures ClassOf(s[1..], c) == ClassOf(t[1..], c)
      {
        var skip := if SameClass(s[0], c) then 1 else 0;
        assert ClassOf(s, c)[skip..] == ClassOf(s[1..], c);
        assert ClassOf(t, c)[skip..] == ClassOf(t[1..], c);
      }
      SortedReorderingsAgree(s[1..], t[1..]);
    }
  }

  /** Every reordering that respects the classes is ordered into the same list. */
  lemma ReorderingsSortAlike(es: seq<Event>, fs: seq<Event>)
    requires Reordering(es, fs)
    ensures Ordered(es) == Ordered(fs)
  {
    OrderedIsStableSort(es);
    OrderedIsStableSort(fs);
    assert Reordering(Ordered(es), Ordered(fs)) by {
      forall c: Event
        ensures ClassOf(Ordered(es), c) == ClassOf(Ordered(fs), c)
      {
        assert ClassOf(es, c) == ClassOf(fs, c);
      }
    }
    SortedReorderingsAgree(Ordered(es), Ordered(fs));
  }

  lemma {:induction false} ClassOfConcat(es: seq<Event>, fs: seq<Event>, c: Event)
    ensures ClassOf(es + fs, c) == ClassOf(es, c) + ClassOf(fs, c)
  {
    if es == [] {
      assert es + fs == fs;
    } else {
      assert (es + fs)[1..] == es[1..] + fs;
      ClassOfConcat(es[1..], fs, c);
    }
  }

  /** Exchanging two neighbours of different classes is such a reordering. */
  lemma SwapIsReordering(front: seq<Event>, a: Event, b: Event, back: seq<Event>)
    requires !SameClass(a, b)
    ensures Reordering(front + [a, b] + back, front + [b, a] + back)
  {
    forall c: Event
      ensures ClassOf(front + [a, b] + back, c) == ClassOf(front + [b, a] + back, c)
    {
      ClassOfConcat(front + [a, b], back, c);
      ClassOfConcat(front + [b, a], back, c);
      ClassOfConcat(front, [a, b], c);
      ClassOfConcat(front, [b, a], c);
      assert [a, b][1..] == [b] && [b, a][1..] == [a] && [a][1..] == [] && [b][1..] == [];
    }
  }

  /** Once ordered, every return follows every invoke that carries the same explicit vout. */
  lemma ReturnsFollowInvokes(es: seq<Event>, i: nat, j: nat)
    requires Sorted(es) && i < |es| && j < |es|
    requires es[i].eventType.Invoke? && es[j].eventType.Return?
    requires es[i].vout.Some? && es[i].vout == es[j].vout
    ensures i < j
  {
    assert !NotAfter(es[j], es[i]);
  }
}
