/**
 * The listings mentioned in a conversation, as `messages_view` shows them:
 * the (id, name) rows of messages that reference a product (or a service)
 * go through a dict keyed by id, so each id appears once, at the place of its
 * first row, with the name of its last row.
 */
module Mentions {
  import opened Wrappers
  import opened Messaging

  datatype Mention = Mention(id: int, name: string)

  datatype ListingKind = ProductListing | ServiceListing

  /** The product or service a message refers to, if any. */
  function ListingOf(m: Message, kind: ListingKind): Option<int> {
    match kind
    case ProductListing => m.product
    case ServiceListing => m.service
  }

  /**
   * `conv.messages.filter(<kind>__isnull=False).values_list("<kind>", "<kind>__name")`: one row per
   * message of the conversation that references a listing; `names` is the listing table.
   */
  function MentionRows(ms: seq<Message>, conv: ConversationId, kind: ListingKind, names: map<int, string>): (r: seq<Mention>)
    ensures forall x :: x in r ==> x.id in names && x.name == names[x.id]
    ensures forall id :: id in Ids(r) <==> Referenced(ms, conv, kind, names, id)
    ensures |r| <= |ms|
  {
    if |ms| == 0 then []
    else
      var front := ms[..|ms| - 1];
      var init := MentionRows(front, conv, kind, names);
      var m := ms[|ms| - 1];
      var ref := ListingOf(m, kind);
      assert ms == front + [m];
      ReferencedAppend(front, m, conv, kind, names);
      if m.conversation == conv && ref.Some? && ref.value in names then
        var r := init + [Mention(ref.value, names[ref.value])];
        IdsAppend(init, Mention(ref.value, names[ref.value]));
        r
      else init
  }

  /** Some message of the conversation refers to listing `id`, and that listing exists. */
  predicate Referenced(ms: seq<Message>, conv: ConversationId, kind: ListingKind, names: map<int, string>, id: int) {
    exists m :: m in ms && m.conversation == conv && ListingOf(m, kind) == Some(id) && id in names
  }

  lemma ReferencedAppend(ms: seq<Message>, m: Message, conv: ConversationId, kind: ListingKind, names: map<int, string>)
    ensures forall id :: Referenced(ms + [m], conv, kind, names, id) <==>
              Referenced(ms, conv, kind, names, id) || (m.conversation == conv && ListingOf(m, kind) == Some(id) && id in names)
  {
    assert forall x :: x in ms + [m] <==> x in ms || x == m;
  }

  /** A message without a listing reference adds no row. */
  lemma MessageWithoutListingAddsNothing(ms: seq<Message>, m: Message, conv: ConversationId, kind: ListingKind, names: map<int, string>)
    requires ListingOf(m, kind).None?
    ensures MentionRows(ms + [m], conv, kind, names) == MentionRows(ms, conv, kind, names)
  {
    assert (ms + [m])[..|ms|] == ms;
  }

  /** The ids of a list of rows. */
  function Ids(d: seq<Mention>): (ids: set<int>)
    ensures forall x :: x in d ==> x.id in ids
    ensures forall id :: id in ids ==> exists k :: 0 <= k < |d| && d[k].id == id
  {
    set x | x in d :: x.id
  }

  predicate DistinctIds(d: seq<Mention>) {
    forall i, j :: 0 <= i < j < |d| ==> d[i].id != d[j].id
  }

  /** `d[id] = name` on an insertion-ordered dict held as a list of entries with distinct ids. */
  function Assign(d: seq<Mention>, row: Mention): (r: seq<Mention>)
    requires DistinctIds(d)
    ensures row.id in Ids(d) ==> |r| == |d| && forall k :: 0 <= k < |d| ==>
              r[k] == (if d[k].id == row.id then row else d[k])
    ensures row.id !in Ids(d) ==> r == d + [row]
  {
    if |d| == 0 then [row]
    else if d[0].id == row.id then [row] + d[1..]
    else
      assert d == [d[0]] + d[1..];
      assert row.id in Ids(d) <==> row.id in Ids(d[1..]);
      [d[0]] + Assign(d[1..], row)
  }

  /** The position of the first row with this id. */
  function FirstIndex(rows: seq<Mention>, id: int): (k: nat)
    requires id in Ids(rows)
    ensures k < |rows| && rows[k].id == id
    ensures forall j :: 0 <= j < k ==> rows[j].id != id
  {
    var init := rows[..|rows| - 1];
    assert rows == init + [rows[|rows| - 1]];
    if id in Ids(init) then FirstIndex(init, id) else |rows| - 1
  }

  /** The name on the last row with this id. */
  function LastName(rows: seq<Mention>, id: int): (name: string)
    requires id in Ids(rows)
    ensures exists k :: 0 <= k < |rows| && rows[k] == Mention(id, name)
                        && forall j :: k < j < |rows| ==> rows[j].id != id
  {
    var last := rows[|rows| - 1];
    if last.id == id then last.name
    else
      var init := rows[..|rows| - 1];
      assert rows == init + [last];
      LastName(init, id)
  }

  /**
   * The dict comprehension followed by `.items()`: one entry per distinct id, in order of each id's
   * first row, carrying the name of its last row.
   */
  function Dedup(rows: seq<Mention>): (r: seq<Mention>)
    ensures DistinctIds(r)
    ensures Ids(r) == Ids(rows)
    ensures forall k :: 0 <= k < |r| ==> r[k].id in Ids(rows) && r[k].name == LastName(rows, r[k].id)
    ensures forall i, j :: 0 <= i < j < |r| ==> FirstIndex(rows, r[i].id) < FirstIndex(rows, r[j].id)
  {
    if |rows| == 0 then []
    else
      var init := rows[..|rows| - 1];
      var row := rows[|rows| - 1];
      assert rows == init + [row];
      var d := Dedup(init);
      DedupStep(init, d, row);
      Assign(d, row)
  }

  /** The inductive step of `Dedup`: assigning the next row keeps all four properties. */
  lemma {:induction false} DedupStep(init: seq<Mention>, d: seq<Mention>, row: Mention)
    requires DistinctIds(d)
    requires Ids(d) == Ids(init)
    requires forall k :: 0 <= k < |d| ==> d[k].id in Ids(init) && d[k].name == LastName(init, d[k].id)
    requires forall i, j :: 0 <= i < j < |d| ==> FirstIndex(init, d[i].id) < FirstIndex(init, d[j].id)
    ensures var rows := init + [row];
            var r := Assign(d, row);
            && DistinctIds(r)
            && Ids(r) == Ids(rows)
            && (forall k :: 0 <= k < |r| ==> r[k].id in Ids(rows) && r[k].name == LastName(rows, r[k].id))
            && (forall i, j :: 0 <= i < j < |r| ==> FirstIndex(rows, r[i].id) < FirstIndex(rows, r[j].id))
  {
    AssignIds(init, d, row);
    AssignNames(init, d, row);
    AssignOrder(init, d, row);
  }

  /** Assigning a row keeps the ids distinct and adds the row's id. */
  lemma {:induction false} AssignIds(init: seq<Mention>, d: seq<Mention>, row: Mention)
    requires DistinctIds(d) && Ids(d) == Ids(init)
    ensures DistinctIds(Assign(d, row))
    ensures Ids(Assign(d, row)) == Ids(init + [row])
  {
    IdsAppend(init, row);
    if row.id in Ids(d) {
      AssignExistingIds(d, row);
    } else {
      AssignNewIds(d, row);
    }
  }

  lemma IdsAppend(s: seq<Mention>, x: Mention)
    ensures Ids(s + [x]) == Ids(s) + {x.id}
  {
    assert forall y :: y in s + [x] <==> y in s || y == x;
  }

  /** Overwriting an existing entry leaves every position's id in place. */
  lemma {:induction false} AssignExistingIds(d: seq<Mention>, row: Mention)
    requires DistinctIds(d) && row.id in Ids(d)
    ensures DistinctIds(Assign(d, row)) && Ids(Assign(d, row)) == Ids(d)
  {
    var r := Assign(d, row);
    assert forall k :: 0 <= k < |r| ==> r[k].id == d[k].id;
    forall id | id in Ids(r) ensures id in Ids(d) {
      var k :| 0 <= k < |r| && r[k].id == id;
      assert d[k] in d;
    }
    forall id | id in Ids(d) ensures id in Ids(r) {
      var k :| 0 <= k < |d| && d[k].id == id;
      assert r[k] in r;
    }
  }

  /** A new id is appended at the end and differs from every earlier one. */
  lemma {:induction false} AssignNewIds(d: seq<Mention>, row: Mention)
    requires DistinctIds(d) && row.id !in Ids(d)
    ensures DistinctIds(Assign(d, row)) && Ids(Assign(d, row)) == Ids(d) + {row.id}
  {
    var r := Assign(d, row);
    assert r == d + [row];
    IdsAppend(d, row);
    forall k | 0 <= k < |d| ensures d[k].id != row.id {
      assert d[k] in d;
    }
  }

  /** Assigning a row gives its id the row's name and leaves every other entry's name alone. */
  lemma {:induction false} AssignNames(init: seq<Mention>, d: seq<Mention>, row: Mention)
    requires DistinctIds(d)
    requires forall k :: 0 <= k < |d| ==> d[k].id in Ids(init) && d[k].name == LastName(init, d[k].id)
    ensures var r := Assign(d, row);
            forall k :: 0 <= k < |r| ==> r[k].id in Ids(init + [row]) && r[k].name == LastName(init + [row], r[k].id)
  {
    var rows := init + [row];
    var r := Assign(d, row);
    IdsAppend(init, row);
    forall k | 0 <= k < |r| ensures r[k].id in Ids(rows) && r[k].name == LastName(rows, r[k].id) {
      if r[k].id == row.id {
        assert r[k] == row;
      } else {
        assert r[k] == d[k];
        LastNameExtend(init, row, d[k].id);
      }
    }
  }

  /** Assigning a row keeps the entries in the order of their ids' first rows. */
  lemma {:induction false} AssignOrder(init: seq<Mention>, d: seq<Mention>, row: Mention)
    requires DistinctIds(d) && Ids(d) == Ids(init)
    requires forall k :: 0 <= k < |d| ==> d[k].id in Ids(init)
    requires forall i, j :: 0 <= i < j < |d| ==> FirstIndex(init, d[i].id) < FirstIndex(init, d[j].id)
    ensures var r := Assign(d, row);
            forall k :: 0 <= k < |r| ==> r[k].id in Ids(init + [row])
    ensures var r := Assign(d, row);
            forall i, j :: 0 <= i < j < |r| ==> FirstIndex(init + [row], r[i].id) < FirstIndex(init + [row], r[j].id)
  {
    var rows := init + [row];
    forall k | 0 <= k < |d| ensures d[k].id in Ids(rows) && FirstIndex(rows, d[k].id) == FirstIndex(init, d[k].id) {
      FirstIndexExtend(init, row, d[k].id);
    }
    if row.id in Ids(d) {
      AssignExistingOrder(init, d, row);
    } else {
      AssignNewOrder(init, d, row);
    }
  }

  lemma {:induction false} AssignExistingOrder(init: seq<Mention>, d: seq<Mention>, row: Mention)
    requires DistinctIds(d) && row.id in Ids(d)
    requires forall k :: 0 <= k < |d| ==> d[k].id in Ids(init)
    requires forall k :: 0 <= k < |d| ==> d[k].id in Ids(init + [row]) && FirstIndex(init + [row], d[k].id) == FirstIndex(init, d[k].id)
    requires forall i, j :: 0 <= i < j < |d| ==> FirstIndex(init, d[i].id) < FirstIndex(init, d[j].id)
    ensures var r := Assign(d, row);
            forall k :: 0 <= k < |r| ==> r[k].id in Ids(init + [row])
    ensures var r := Assign(d, row);
            forall i, j :: 0 <= i < j < |r| ==> FirstIndex(init + [row], r[i].id) < FirstIndex(init + [row], r[j].id)
  {
    var r := Assign(d, row);
    forall k | 0 <= k < |r| ensures r[k].id == d[k].id && r[k].id in Ids(init + [row]) {
    }
    forall i, j | 0 <= i < j < |r| ensures FirstIndex(init + [row], r[i].id) < FirstIndex(init + [row], r[j].id) {
      assert r[i].id == d[i].id && r[j].id == d[j].id;
    }
  }

  lemma {:induction false} AssignNewOrder(init: seq<Mention>, d: seq<Mention>, row: Mention)
    requires DistinctIds(d) && row.id !in Ids(init)
    requires forall k :: 0 <= k < |d| ==> d[k].id in Ids(init)
    requires forall k :: 0 <= k < |d| ==> d[k].id in Ids(init + [row]) && FirstIndex(init + [row], d[k].id) == FirstIndex(init, d[k].id)
    requires forall i, j :: 0 <= i < j < |d| ==> FirstIndex(init, d[i].id) < FirstIndex(init, d[j].id)
    ensures forall k :: 0 <= k < |d| + 1 ==> (d + [row])[k].id in Ids(init + [row])
    ensures forall i, j :: 0 <= i < j < |d| + 1 ==> FirstIndex(init + [row], (d + [row])[i].id) < FirstIndex(init + [row], (d + [row])[j].id)
  {
    var rows := init + [row];
    var r := d + [row];
    assert r == Assign(d, row);
    IdsAppend(init, row);
    forall i, j | 0 <= i < j < |r| ensures FirstIndex(rows, r[i].id) < FirstIndex(rows, r[j].id) {
      if j == |d| {
        assert r[i] == d[i] && r[j] == row;
        FirstIndexNew(init, row);
      } else {
        assert r[i] == d[i] && r[j] == d[j];
      }
    }
  }

  /** A row whose id is new is its id's first row. */
  lemma FirstIndexNew(init: seq<Mention>, row: Mention)
    requires row.id !in Ids(init)
    ensures row.id in Ids(init + [row]) && FirstIndex(init + [row], row.id) == |init|
  {
    IdsAppend(init, row);
    assert (init + [row])[..|init|] == init;
  }

  /** Appending a row does not move the first row of an id already present. */
  lemma FirstIndexExtend(init: seq<Mention>, row: Mention, id: int)
    requires id in Ids(init)
    ensures id in Ids(init + [row]) && FirstIndex(init + [row], id) == FirstIndex(init, id)
  {
    assert (init + [row])[..|init|] == init;
  }

  /** Appending a row with another id does not change an id's last name. */
  lemma LastNameExtend(init: seq<Mention>, row: Mention, id: int)
    requires id in Ids(init) && id != row.id
    ensures id in Ids(init + [row]) && LastName(init + [row], id) == LastName(init, id)
  {
    assert (init + [row])[..|init|] == init;
  }

  /** The mentioned listings of a conversation, one per distinct id. */
  function MentionedListings(ms: seq<Message>, conv: ConversationId, kind: ListingKind, names: map<int, string>): (r: seq<Mention>)
    ensures DistinctIds(r)
    ensures forall x :: x in r ==> x.id in names && x.name == names[x.id]
    ensures Ids(r) == Ids(MentionRows(ms, conv, kind, names))
    ensures forall id :: id in Ids(r) <==> Referenced(ms, conv, kind, names, id)
  {
    var rows := MentionRows(ms, conv, kind, names);
    var r := Dedup(rows);
    forall x | x in r ensures x.id in names && x.name == names[x.id] {
      var k :| 0 <= k < |r| && r[k] == x;
      var name := LastName(rows, x.id);
      var j :| 0 <= j < |rows| && rows[j] == Mention(x.id, name);
      assert rows[j] in rows;
    }
    r
  }
}
