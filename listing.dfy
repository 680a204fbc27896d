/**
 * The two GET handlers: copy a collection, sort it newest-first by `created_at`
 * (a stable sort, as `Array.prototype.sort` is), and for found items drop the
 * verification answer from every record.
 */
module Listing {
  import opened Records

  /** Non-increasing in `key`: the newest record first. */
  ghost predicate NewestFirst<T>(s: seq<T>, key: T -> int) {
    forall i, j :: 0 <= i < j < |s| ==> key(s[i]) >= key(s[j])
  }

  /** The records of `s` whose key is `t`, in their order in `s`. Stability of a sort is
      that these subsequences are the same before and after. */
  function WithKey<T>(s: seq<T>, key: T -> int, t: int): seq<T> {
    if s == [] then []
    else (if key(s[0]) == t then [s[0]] else []) + WithKey(s[1..], key, t)
  }

  lemma WithKeyCons<T>(x: T, s: seq<T>, key: T -> int, t: int)
    ensures WithKey([x] + s, key, t) == (if key(x) == t then [x] else []) + WithKey(s, key, t)
  {
    assert ([x] + s)[1..] == s;
  }

  /** Places `x` before the first record that is not newer than it. */
  function InsertNewest<T>(x: T, s: seq<T>, key: T -> int): seq<T> {
    if s == [] || key(x) >= key(s[0]) then [x] + s
    else [s[0]] + InsertNewest(x, s[1..], key)
  }

  lemma {:induction false} InsertNewestPermutes<T>(x: T, s: seq<T>, key: T -> int)
    ensures multiset(InsertNewest(x, s, key)) == multiset(s) + multiset{x}
  {
    if s != [] && key(x) < key(s[0]) {
      InsertNewestPermutes(x, s[1..], key);
      assert s == [s[0]] + s[1..];
    }
  }

  lemma {:induction false} InsertNewestOrdered<T>(x: T, s: seq<T>, key: T -> int)
    requires NewestFirst(s, key)
    ensures NewestFirst(InsertNewest(x, s, key), key)
  {
    if s != [] && key(x) < key(s[0]) {
      var rest := InsertNewest(x, s[1..], key);
      InsertNewestOrdered(x, s[1..], key);
      InsertNewestPermutes(x, s[1..], key);
      forall j | 0 <= j < |rest| ensures key(s[0]) >= key(rest[j]) {
        assert rest[j] in multiset(rest);
        if rest[j] != x {
          assert rest[j] in multiset(s[1..]);
          var k :| 0 <= k < |s[1..]| && s[1..][k] == rest[j];
          assert s[k + 1] == rest[j];
        }
      }
    }
  }

  /** Inserting `x` puts it before every record with the same key: it is the oldest
      inserted so far, so insertion order among equal timestamps is kept. */
  lemma {:induction false} InsertNewestWithKey<T>(x: T, s: seq<T>, key: T -> int, t: int)
    ensures WithKey(InsertNewest(x, s, key), key, t)
         == (if key(x) == t then [x] else []) + WithKey(s, key, t)
  {
    if s == [] || key(x) >= key(s[0]) {
      WithKeyCons(x, s, key, t);
    } else {
      var rest := InsertNewest(x, s[1..], key);
      var tail := WithKey(s[1..], key, t);
      var mine: seq<T> := if key(x) == t then [x] else [];
      var first: seq<T> := if key(s[0]) == t then [s[0]] else [];
      assert InsertNewest(x, s, key) == [s[0]] + rest;
      assert WithKey([s[0]] + rest, key, t) == first + WithKey(rest, key, t) by {
        WithKeyCons(s[0], rest, key, t);
      }
      assert WithKey(s, key, t) == first + tail by {
        WithKeyCons(s[0], s[1..], key, t);
        assert [s[0]] + s[1..] == s;
      }
      assert WithKey(rest, key, t) == mine + tail by {
        InsertNewestWithKey(x, s[1..], key, t);
      }
      // s[0] is strictly newer than x, so at most one of them has the key t
      assert first == [] || mine == [];
      assert first + (mine + tail) == mine + (first + tail);
    }
  }

  /** The sort the listings use: newest first, records with equal timestamps kept in
      insertion order. */
  function SortNewestFirst<T>(s: seq<T>, key: T -> int): seq<T> {
    if s == [] then [] else InsertNewest(s[0], SortNewestFirst(s[1..], key), key)
  }

  /** The sort returns a permutation of its input that is newest-first and keeps
      records with equal timestamps in their original order. */
  lemma {:induction false} SortNewestFirstCorrect<T>(s: seq<T>, key: T -> int)
    ensures multiset(SortNewestFirst(s, key)) == multiset(s)
    ensures NewestFirst(SortNewestFirst(s, key), key)
    ensures forall t :: WithKey(SortNewestFirst(s, key), key, t) == WithKey(s, key, t)
  {
    if s != [] {
      var sorted := SortNewestFirst(s[1..], key);
      SortNewestFirstCorrect(s[1..], key);
      InsertNewestOrdered(s[0], sorted, key);
      InsertNewestPermutes(s[0], sorted, key);
      assert s == [s[0]] + s[1..];
      forall t ensures WithKey(SortNewestFirst(s, key), key, t) == WithKey(s, key, t) {
        InsertNewestWithKey(s[0], sorted, key, t);
        WithKeyCons(s[0], s[1..], key, t);
        assert [s[0]] + s[1..] == s;
      }
    }
  }

  // ---------------------------------------------------------------------------
  // GET /lost

  function LostCreatedAt(item: LostItem): int { item.createdAt }

  /** GET /lost: every lost item, exactly once, newest first, ties in insertion order. */
  function ListLost(db: Db): (r: seq<LostItem>)
    ensures multiset(r) == multiset(db.lostItems)
    ensures NewestFirst(r, LostCreatedAt)
    ensures forall t :: WithKey(r, LostCreatedAt, t) == WithKey(db.lostItems, LostCreatedAt, t)
  {
    SortNewestFirstCorrect(db.lostItems, LostCreatedAt);
    SortNewestFirst(db.lostItems, LostCreatedAt)
  }

  // ---------------------------------------------------------------------------
  // GET /found

  function FoundCreatedAt(item: FoundItem): int { item.createdAt }
  function PublicCreatedAt(item: PublicFoundItem): int { item.createdAt }

  /** Puts an answer back into a public record; the inverse of HideAnswer. */
  function WithAnswer(v: PublicFoundItem, answer: string): FoundItem {
    FoundItem(v.id, v.title, v.description, v.category, v.location, v.contactEmail,
              v.verificationQuestion, answer, v.status, v.createdAt)
  }

  /** `({ verification_answer, ...safe }) => safe`: every field but the answer is kept,
      and the result does not depend on the answer. */
  function HideAnswer(f: FoundItem): (v: PublicFoundItem)
    ensures WithAnswer(v, f.verificationAnswer) == f
    ensures v.id == f.id && v.status == f.status && v.createdAt == f.createdAt
  {
    PublicFoundItem(f.id, f.title, f.description, f.category, f.location, f.contactEmail,
                    f.verificationQuestion, f.status, f.createdAt)
  }

  function HideAll(s: seq<FoundItem>): seq<PublicFoundItem> {
    seq(|s|, i requires 0 <= i < |s| => HideAnswer(s[i]))
  }

  lemma {:induction false} HideAllInsert(x: FoundItem, s: seq<FoundItem>)
    ensures HideAll(InsertNewest(x, s, FoundCreatedAt))
         == InsertNewest(HideAnswer(x), HideAll(s), PublicCreatedAt)
  {
    if s == [] || x.createdAt >= s[0].createdAt {
      assert HideAll([x] + s) == [HideAnswer(x)] + HideAll(s);
    } else {
      HideAllInsert(x, s[1..]);
      assert HideAll(s)[1..] == HideAll(s[1..]);
      var rest := InsertNewest(x, s[1..], FoundCreatedAt);
      assert HideAll([s[0]] + rest) == [HideAnswer(s[0])] + HideAll(rest);
    }
  }

  /** Hiding answers then sorting gives what sorting then hiding gives. */
  lemma {:induction false} HideAllSort(s: seq<FoundItem>)
    ensures HideAll(SortNewestFirst(s, FoundCreatedAt))
         == SortNewestFirst(HideAll(s), PublicCreatedAt)
  {
    if s != [] {
      HideAllSort(s[1..]);
      assert HideAll(s)[1..] == HideAll(s[1..]);
      HideAllInsert(s[0], SortNewestFirst(s[1..], FoundCreatedAt));
    }
  }

  /** GET /found: every found item, exactly once and without its answer, newest first,
      ties in insertion order. */
  function ListFound(db: Db): (r: seq<PublicFoundItem>)
    ensures multiset(r) == multiset(HideAll(db.foundItems))
    ensures NewestFirst(r, PublicCreatedAt)
    ensures forall t :: WithKey(r, PublicCreatedAt, t) == WithKey(HideAll(db.foundItems), PublicCreatedAt, t)
  {
    HideAllSort(db.foundItems);
    SortNewestFirstCorrect(HideAll(db.foundItems), PublicCreatedAt);
    HideAll(SortNewestFirst(db.foundItems, FoundCreatedAt))
  }

  /** Found-item collections that agree on everything except the stored answers. */
  ghost predicate SameButAnswers(s1: seq<FoundItem>, s2: seq<FoundItem>) {
    |s1| == |s2| &&
    forall i :: 0 <= i < |s1| ==> s1[i] == s2[i].(verificationAnswer := s1[i].verificationAnswer)
  }

  /** The found listing reveals nothing about the stored answers: stores that differ only
      in them list identically. */
  lemma ListFoundIgnoresAnswers(db1: Db, db2: Db)
    requires SameButAnswers(db1.foundItems, db2.foundItems)
    ensures ListFound(db1) == ListFound(db2)
  {
    var h1, h2 := HideAll(db1.foundItems), HideAll(db2.foundItems);
    forall i | 0 <= i < |h1| ensures h1[i] == h2[i] {
      var f1, f2 := db1.foundItems[i], db2.foundItems[i];
      assert HideAnswer(f1) == HideAnswer(f2.(verificationAnswer := f1.verificationAnswer));
    }
    assert h1 == h2;
    HideAllSort(db1.foundItems);
    HideAllSort(db2.foundItems);
  }

  /** The found listing shows every found item's `contact_email`, whether or not the item
      has been claimed: only the answer is removed. */
  lemma ListFoundShowsContact(db: Db, k: nat)
    requires k < |db.foundItems|
    ensures exists j :: 0 <= j < |ListFound(db)| && ListFound(db)[j].id == db.foundItems[k].id
                        && ListFound(db)[j].contactEmail == db.foundItems[k].contactEmail
  {
    var h := HideAll(db.foundItems);
    var v := HideAnswer(db.foundItems[k]);
    assert h[k] == v;
    assert v in multiset(h);
    assert v in multiset(ListFound(db));
    var j :| 0 <= j < |ListFound(db)| && ListFound(db)[j] == v;
  }

}
