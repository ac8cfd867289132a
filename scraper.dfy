/** Duplicate removal in the scraper orchestrator (src/gaming_events_scraper/scraper.py):
    events are kept in input order, each the first with its key, where the key is
    the lower-cased and stripped title with the date and start time as written. */
module Scraper {
  import opened Text
  import opened GamingEvents

  datatype EventKey = EventKey(title: string, date: string, startTime: string)

  /** (event.title.lower().strip(), event.date, event.start_time) */
  function Key(e: GamingEvent): EventKey {
    EventKey(Strip(Lower(e.title)), e.date, e.startTime)
  }

  /** The keys of the elements of s. */
  ghost function Keys<T, K>(s: seq<T>, key: T -> K): set<K> {
    set e | e in s :: key(e)
  }

  /** The specification of the loop: scan left to right, keeping an element when its
      key has not been seen, and adding its key to the seen set. */
  function KeepFirst<T, K>(s: seq<T>, key: T -> K, seen: set<K>): seq<T>
    decreases |s|
  {
    if s == [] then []
    else if key(s[0]) in seen then KeepFirst(s[1..], key, seen)
    else [s[0]] + KeepFirst(s[1..], key, seen + {key(s[0])})
  }

  /** One step of the scan, at position i. */
  lemma KeepFirstStep<T, K>(s: seq<T>, key: T -> K, i: nat, seen: set<K>)
    requires i < |s|
    ensures KeepFirst(s[i..], key, seen) ==
      if key(s[i]) in seen then KeepFirst(s[i + 1..], key, seen)
      else [s[i]] + KeepFirst(s[i + 1..], key, seen + {key(s[i])})
  {
    assert s[i..][1..] == s[i + 1..];
  }

  method RemoveDuplicates(events: seq<GamingEvent>) returns (unique: seq<GamingEvent>)
    ensures unique == KeepFirst(events, Key, {})
  {
    unique := [];
    var seen: set<EventKey> := {};
    var i := 0;
    assert events[i..] == events;
    while i < |events|
      invariant 0 <= i <= |events|
      invariant unique + KeepFirst(events[i..], Key, seen) == KeepFirst(events, Key, {})
    {
      var key := Key(events[i]);
      KeepFirstStep(events, Key, i, seen);
      if key !in seen {
        ghost var rest := KeepFirst(events[i + 1..], Key, seen + {key});
        assert (unique + [events[i]]) + rest == unique + ([events[i]] + rest);
        unique := unique + [events[i]];
        seen := seen + {key};
      }
      i := i + 1;
    }
  }

  /** a is b with some elements deleted. */
  ghost predicate IsSubsequence<T>(a: seq<T>, b: seq<T>)
    decreases |b|
  {
    if a == [] then true
    else if b == [] then false
    else (a[0] == b[0] && IsSubsequence(a[1..], b[1..])) || IsSubsequence(a, b[1..])
  }

  /** The output is the input with elements deleted, order kept. */
  lemma {:induction false} KeepFirstSubsequence<T, K>(s: seq<T>, key: T -> K, seen: set<K>)
    ensures IsSubsequence(KeepFirst(s, key, seen), s)
    decreases |s|
  {
    if s != [] {
      var seen' := if key(s[0]) in seen then seen else seen + {key(s[0])};
      KeepFirstSubsequence(s[1..], key, seen');
      var r := KeepFirst(s, key, seen);
      if key(s[0]) !in seen {
        assert r[0] == s[0] && r[1..] == KeepFirst(s[1..], key, seen');
      } else if r != [] {
        assert r == KeepFirst(s[1..], key, seen);
      }
    }
  }

  predicate DistinctKeys<T, K(==)>(s: seq<T>, key: T -> K) {
    forall i, j :: 0 <= i < j < |s| ==> key(s[i]) != key(s[j])
  }

  /** The output keys are pairwise distinct, and they are exactly the keys of the
      input that were not already seen. */
  lemma {:induction false} KeepFirstKeys<T, K>(s: seq<T>, key: T -> K, seen: set<K>)
    ensures DistinctKeys(KeepFirst(s, key, seen), key)
    ensures Keys(KeepFirst(s, key, seen), key) == Keys(s, key) - seen
    decreases |s|
  {
    if s != [] {
      var seen' := if key(s[0]) in seen then seen else seen + {key(s[0])};
      KeepFirstKeys(s[1..], key, seen');
      var rest := KeepFirst(s[1..], key, seen');
      assert Keys(s, key) == {key(s[0])} + Keys(s[1..], key) by {
        assert forall e :: e in s <==> e == s[0] || e in s[1..];
      }
      if key(s[0]) !in seen {
        var r := [s[0]] + rest;
        assert Keys(r, key) == {key(s[0])} + Keys(rest, key) by {
          assert forall e :: e in r <==> e == s[0] || e in rest;
        }
        forall i, j | 0 <= i < j < |r| ensures key(r[i]) != key(r[j]) {
          if i == 0 {
            assert r[j] in rest;
            assert key(r[j]) in Keys(rest, key);
          } else {
            assert r[i] == rest[i - 1] && r[j] == rest[j - 1];
          }
        }
      }
    }
  }

  /** The first element of s with key k. */
  ghost function FirstWithKey<T, K>(s: seq<T>, key: T -> K, k: K): T
    requires k in Keys(s, key)
    decreases |s|
  {
    if key(s[0]) == k then s[0]
    else
      assert k in Keys(s[1..], key) by {
        var e :| e in s && key(e) == k;
        assert e != s[0];
      }
      FirstWithKey(s[1..], key, k)
  }

  /** Every kept element is the first of its key in the input. */
  lemma {:induction false} KeepFirstIsFirst<T, K>(s: seq<T>, key: T -> K, seen: set<K>)
    ensures forall e :: e in KeepFirst(s, key, seen) ==>
      key(e) in Keys(s, key) && e == FirstWithKey(s, key, key(e))
    decreases |s|
  {
    if s != [] {
      var seen' := if key(s[0]) in seen then seen else seen + {key(s[0])};
      KeepFirstIsFirst(s[1..], key, seen');
      KeepFirstKeys(s[1..], key, seen');
      var rest := KeepFirst(s[1..], key, seen');
      forall e | e in KeepFirst(s, key, seen)
        ensures key(e) in Keys(s, key) && e == FirstWithKey(s, key, key(e))
      {
        if e in rest {
          assert key(e) in Keys(rest, key);
          assert key(e) != key(s[0]);
          var x :| x in s[1..] && key(x) == key(e);
          assert x in s;
        }
      }
    }
  }

  /** Scanning a list whose keys are distinct and unseen changes nothing. */
  lemma {:induction false} KeepFirstDistinct<T, K>(s: seq<T>, key: T -> K, seen: set<K>)
    requires DistinctKeys(s, key) && Keys(s, key) !! seen
    ensures KeepFirst(s, key, seen) == s
    decreases |s|
  {
    if s != [] {
      assert key(s[0]) in Keys(s, key);
      assert Keys(s[1..], key) !! seen + {key(s[0])} by {
        forall e | e in s[1..] ensures key(e) != key(s[0]) && key(e) !in seen {
          var j :| 0 <= j < |s[1..]| && s[1..][j] == e;
          assert e == s[j + 1];
          assert e in s;
        }
      }
      KeepFirstDistinct(s[1..], key, seen + {key(s[0])});
    }
  }

  /** So removing duplicates twice is removing them once. */
  lemma KeepFirstIdempotent<T, K>(s: seq<T>, key: T -> K)
    ensures KeepFirst(KeepFirst(s, key, {}), key, {}) == KeepFirst(s, key, {})
  {
    KeepFirstKeys(s, key, {});
    KeepFirstDistinct(KeepFirst(s, key, {}), key, {});
  }

  /** Venue and source do not take part in the key; titles compare ignoring ASCII
      case and surrounding whitespace. */
  lemma SameKeyIsDuplicate(a: GamingEvent, b: GamingEvent)
    requires SameIgnoringCase(a.title, b.title) && a.date == b.date && a.startTime == b.startTime
    ensures KeepFirst([a, b], Key, {}) == [a]
  {
    SameIgnoringCaseLower(a.title, b.title);
    assert Key(a) == Key(b);
    assert [a, b][1..] == [b] && [b][1..] == [];
    assert [a, b][0..] == [a, b] && [a, b][1..] == [b] && [b][1..] == [];
    KeepFirstStep([a, b], Key, 0, {});
    var none: set<EventKey> := {};
    assert none + {Key(a)} == {Key(a)};
    assert KeepFirst([b], Key, {Key(a)}) == KeepFirst([], Key, {Key(a)});
  }

  /** Dates compare exactly: the same event written with two date texts is kept twice. */
  lemma DifferentDatesAreKept(a: GamingEvent, b: GamingEvent)
    requires a.date != b.date
    ensures KeepFirst([a, b], Key, {}) == [a, b]
  {
    assert [a, b][1..] == [b] && [b][1..] == [];
    assert Key(a) != Key(b);
    assert [a, b][0..] == [a, b] && [a, b][1..] == [b] && [b][1..] == [];
    KeepFirstStep([a, b], Key, 0, {});
    var none: set<EventKey> := {};
    assert none + {Key(a)} == {Key(a)};
    assert KeepFirst([b], Key, {Key(a)}) == [b] + KeepFirst([], Key, {Key(a), Key(b)});
  }
}
