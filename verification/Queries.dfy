/** Rows in query order: the retention batch is ordered by expiry and id, the export by value. */
module Queries {
  import opened Contacts

  datatype Order = ByExpiry | ByValue(collate: string -> string)

  /** Strict lexicographic order by code point. */
  predicate StringBefore(s: string, t: string) {
    if s == [] then t != []
    else t != [] && (s[0] < t[0] || (s[0] == t[0] && StringBefore(s[1..], t[1..])))
  }

  /** The strings agree up to n, where the first ends or has the smaller character. */
  predicate DiffersAt(s: string, t: string, n: nat) {
    && n <= |s| && n < |t| && s[..n] == t[..n]
    && (n == |s| || s[n] < t[n])
  }

  lemma {:induction false} StringOrderIsLexicographic(s: string, t: string)
    ensures StringBefore(s, t) <==> exists n: nat :: DiffersAt(s, t, n)
  {
    if s == [] {
      assert t != [] ==> DiffersAt(s, t, 0);
    } else if t != [] {
      StringOrderIsLexicographic(s[1..], t[1..]);
      if s[0] < t[0] {
        assert DiffersAt(s, t, 0);
      } else if s[0] == t[0] {
        if n: nat :| DiffersAt(s[1..], t[1..], n) {
          assert s[..n + 1] == [s[0]] + s[1..][..n] && t[..n + 1] == [t[0]] + t[1..][..n];
          assert DiffersAt(s, t, n + 1);
        }
        if n: nat :| DiffersAt(s, t, n) {
          TailDiffers(s, t, n);
        }
      } else {
        forall n: nat ensures !DiffersAt(s, t, n) {
          assert 0 < n <= |s| && n <= |t| ==> s[..n][0] == s[0] && t[..n][0] == t[0];
        }
      }
    }
  }

  lemma TailDiffers(s: string, t: string, n: nat)
    requires s != [] && DiffersAt(s, t, n) && s[0] == t[0]
    ensures n > 0 && DiffersAt(s[1..], t[1..], n - 1)
  {
    assert s[1..][..n - 1] == s[..n][1..] && t[1..][..n - 1] == t[..n][1..];
  }

  /** The order of two rows; ties go by id. */
  predicate Before(order: Order, contacts: map<ContactId, Contact>, a: ContactId, b: ContactId)
    requires a in contacts && b in contacts
  {
    match order
    case ByExpiry =>
      contacts[a].expiresAt < contacts[b].expiresAt || (contacts[a].expiresAt == contacts[b].expiresAt && a < b)
    case ByValue(collate) =>
      var first, second := collate(contacts[a].value), collate(contacts[b].value);
      StringBefore(first, second) || (first == second && a < b)
  }

  lemma {:induction false} StringOrderIsTotal(s: string, t: string)
    ensures s == t || StringBefore(s, t) || StringBefore(t, s)
    ensures !(StringBefore(s, t) && StringBefore(t, s)) && !StringBefore(s, s)
  {
    if s != [] && t != [] {
      assert s == [s[0]] + s[1..] && t == [t[0]] + t[1..];
      StringOrderIsTotal(s[1..], t[1..]);
    } else if s != [] {
      StringOrderIsTotal(s[1..], []);
    }
  }

  lemma {:induction false} StringOrderIsTransitive(s: string, t: string, u: string)
    requires StringBefore(s, t) && StringBefore(t, u)
    ensures StringBefore(s, u)
  {
    if s != [] && s[0] == t[0] == u[0] {
      StringOrderIsTransitive(s[1..], t[1..], u[1..]);
    }
  }

  lemma OrderIsTotal(order: Order, contacts: map<ContactId, Contact>, a: ContactId, b: ContactId)
    requires a in contacts && b in contacts
    ensures a == b || Before(order, contacts, a, b) || Before(order, contacts, b, a)
    ensures !(Before(order, contacts, a, b) && Before(order, contacts, b, a))
  {
    if order.ByValue? {
      StringOrderIsTotal(order.collate(contacts[a].value), order.collate(contacts[b].value));
    }
  }

  lemma OrderIsTransitive(order: Order, contacts: map<ContactId, Contact>, a: ContactId, b: ContactId, c: ContactId)
    requires a in contacts && b in contacts && c in contacts
    requires Before(order, contacts, a, b) && Before(order, contacts, b, c)
    ensures Before(order, contacts, a, c)
  {
    if order.ByValue? {
      var first, second := order.collate(contacts[a].value), order.collate(contacts[b].value);
      var third := order.collate(contacts[c].value);
      if StringBefore(first, second) && StringBefore(second, third) {
        StringOrderIsTransitive(first, second, third);
      }
    }
  }

  ghost predicate IsFirst(order: Order, contacts: map<ContactId, Contact>, ids: set<ContactId>, m: ContactId)
    requires ids <= contacts.Keys
  {
    m in ids && forall x | x in ids && x != m :: Before(order, contacts, m, x)
  }

  lemma {:induction false} FirstExists(order: Order, contacts: map<ContactId, Contact>, ids: set<ContactId>)
    returns (m: ContactId)
    requires ids <= contacts.Keys && ids != {}
    ensures IsFirst(order, contacts, ids, m)
    decreases |ids|
  {
    m :| m in ids;
    if ids != {m} {
      var other := FirstExists(order, contacts, ids - {m});
      OrderIsTotal(order, contacts, m, other);
      if Before(order, contacts, other, m) {
        m := other;
      } else {
        forall x | x in ids && x != m ensures Before(order, contacts, m, x) {
          if x != other {
            OrderIsTransitive(order, contacts, m, other, x);
          }
        }
      }
    }
  }

  lemma FirstIsUnique(order: Order, contacts: map<ContactId, Contact>, ids: set<ContactId>, m: ContactId, n: ContactId)
    requires ids <= contacts.Keys && IsFirst(order, contacts, ids, m) && IsFirst(order, contacts, ids, n)
    ensures m == n
  {
    OrderIsTotal(order, contacts, m, n);
  }

  /** The rows of `ids` in query order. */
  ghost function Ranked(order: Order, contacts: map<ContactId, Contact>, ids: set<ContactId>): seq<ContactId>
    requires ids <= contacts.Keys
    decreases |ids|
  {
    if ids == {} then []
    else
      assert exists m :: IsFirst(order, contacts, ids, m) by {
        var m := FirstExists(order, contacts, ids);
      }
      var m :| IsFirst(order, contacts, ids, m);
      [m] + Ranked(order, contacts, ids - {m})
  }

  lemma RankedStarts(order: Order, contacts: map<ContactId, Contact>, ids: set<ContactId>, m: ContactId)
    requires ids <= contacts.Keys && IsFirst(order, contacts, ids, m)
    ensures Ranked(order, contacts, ids) == [m] + Ranked(order, contacts, ids - {m})
  {
    FirstIsUnique(order, contacts, ids, m, Ranked(order, contacts, ids)[0]);
  }

  ghost predicate Ascending(order: Order, contacts: map<ContactId, Contact>, rows: seq<ContactId>)
    requires forall x | x in rows :: x in contacts
  {
    forall i, j | 0 <= i < j < |rows| :: Before(order, contacts, rows[i], rows[j])
  }

  /** Every row once, in strictly ascending order. */
  lemma {:induction false} RankedIsTheQuery(order: Order, contacts: map<ContactId, Contact>, ids: set<ContactId>)
    requires ids <= contacts.Keys
    ensures var rows := Ranked(order, contacts, ids);
      && |rows| == |ids| && (forall x :: x in rows <==> x in ids) && Ascending(order, contacts, rows)
    decreases |ids|
  {
    if ids != {} {
      var rows := Ranked(order, contacts, ids);
      RankedIsTheQuery(order, contacts, ids - {rows[0]});
      assert rows == [rows[0]] + Ranked(order, contacts, ids - {rows[0]});
      forall x ensures x in rows <==> x in ids {
        assert x in rows <==> x == rows[0] || x in rows[1..];
      }
    }
  }

  function RowSet(rows: seq<ContactId>): set<ContactId> {
    set x | x in rows
  }

  lemma RowSetDrop(ids: set<ContactId>, m: ContactId, tail: seq<ContactId>, k: nat)
    requires k <= |tail|
    ensures ids - RowSet(([m] + tail)[..k + 1]) == (ids - {m}) - RowSet(tail[..k])
  {
    assert ([m] + tail)[..k + 1] == [m] + tail[..k];
    assert forall x :: x in RowSet([m] + tail[..k]) <==> x == m || x in RowSet(tail[..k]);
  }

  /** Taking the first rows out leaves the others in the same order. */
  lemma {:induction false} RankedDrop(
    order: Order, contacts: map<ContactId, Contact>, ids: set<ContactId>, k: nat)
    requires ids <= contacts.Keys && k <= |Ranked(order, contacts, ids)|
    ensures var rows := Ranked(order, contacts, ids);
      Ranked(order, contacts, ids - RowSet(rows[..k])) == rows[k..]
    decreases k
  {
    var rows := Ranked(order, contacts, ids);
    if k == 0 {
      assert ids - RowSet(rows[..0]) == ids;
    } else {
      var m := rows[0];
      var tail := Ranked(order, contacts, ids - {m});
      assert rows == [m] + tail;
      RankedDrop(order, contacts, ids - {m}, k - 1);
      RowSetDrop(ids, m, tail, k - 1);
    }
  }

  lemma {:induction false} RankedFrame(
    order: Order, contacts: map<ContactId, Contact>, other: map<ContactId, Contact>, ids: set<ContactId>)
    requires ids <= contacts.Keys && ids <= other.Keys
    requires forall x | x in ids :: other[x] == contacts[x]
    ensures Ranked(order, contacts, ids) == Ranked(order, other, ids)
    decreases |ids|
  {
    if ids != {} {
      var m, n := Ranked(order, contacts, ids)[0], Ranked(order, other, ids)[0];
      assert IsFirst(order, contacts, ids, m) && IsFirst(order, other, ids, n);
      assert IsFirst(order, contacts, ids, n);
      FirstIsUnique(order, contacts, ids, m, n);
      RankedFrame(order, contacts, other, ids - {m});
    }
  }

  ghost predicate AllBefore(
    order: Order, contacts: map<ContactId, Contact>, ids: set<ContactId>, others: set<ContactId>)
    requires ids <= contacts.Keys && others <= contacts.Keys
  {
    forall x, y | x in ids && y in others :: Before(order, contacts, x, y)
  }

  lemma FirstOfAll(
    order: Order, contacts: map<ContactId, Contact>, ids: set<ContactId>, more: set<ContactId>, m: ContactId)
    requires ids <= more <= contacts.Keys && AllBefore(order, contacts, ids, more - ids)
    requires IsFirst(order, contacts, ids, m)
    ensures IsFirst(order, contacts, more, m)
  {
    forall x | x in more && x != m ensures Before(order, contacts, m, x) {
      assert x in ids || x in more - ids;
    }
  }

  lemma PrefixGrows(m: ContactId, a: seq<ContactId>, b: seq<ContactId>)
    requires a <= b
    ensures [m] + a <= [m] + b
  {
  }

  /** Rows that come before all the others are the front of the query. */
  lemma {:induction false} RankedPrefix(
    order: Order, contacts: map<ContactId, Contact>, ids: set<ContactId>, more: set<ContactId>)
    requires ids <= more <= contacts.Keys && AllBefore(order, contacts, ids, more - ids)
    ensures Ranked(order, contacts, ids) <= Ranked(order, contacts, more)
    decreases |ids|
  {
    if ids != {} {
      var m := FirstExists(order, contacts, ids);
      FirstOfAll(order, contacts, ids, more, m);
      RankedStarts(order, contacts, ids, m);
      RankedStarts(order, contacts, more, m);
      assert (more - {m}) - (ids - {m}) == more - ids;
      RankedPrefix(order, contacts, ids - {m}, more - {m});
      PrefixGrows(m, Ranked(order, contacts, ids - {m}), Ranked(order, contacts, more - {m}));
    }
  }

  /** No row is out of place by value; rows with equal sort keys may come in any order. */
  ghost predicate Collated(collate: string -> string, contacts: map<ContactId, Contact>, rows: seq<ContactId>)
    requires forall x | x in rows :: x in contacts
  {
    forall i, j | 0 <= i < j < |rows| ::
      !StringBefore(collate(contacts[rows[j]].value), collate(contacts[rows[i]].value))
  }

  ghost predicate EachOnce(rows: seq<ContactId>) {
    forall i, j | 0 <= i < j < |rows| :: rows[i] != rows[j]
  }

  /** What a SELECT of `ids` ordered by value may return. */
  ghost predicate IsAnswer(
    collate: string -> string, contacts: map<ContactId, Contact>, ids: set<ContactId>, rows: seq<ContactId>)
    requires ids <= contacts.Keys
  {
    (forall x :: x in rows <==> x in ids) && EachOnce(rows) && Collated(collate, contacts, rows)
  }

  lemma RankedIsAnAnswer(collate: string -> string, contacts: map<ContactId, Contact>, ids: set<ContactId>)
    requires ids <= contacts.Keys
    ensures IsAnswer(collate, contacts, ids, Ranked(ByValue(collate), contacts, ids))
  {
    var order, rows := ByValue(collate), Ranked(ByValue(collate), contacts, ids);
    RankedIsTheQuery(order, contacts, ids);
    forall i, j | 0 <= i < j < |rows|
      ensures rows[i] != rows[j]
      ensures !StringBefore(collate(contacts[rows[j]].value), collate(contacts[rows[i]].value))
    {
      assert Before(order, contacts, rows[i], rows[j]);
      OrderIsTotal(order, contacts, rows[i], rows[j]);
      StringOrderIsTotal(collate(contacts[rows[i]].value), collate(contacts[rows[j]].value));
    }
  }
}
