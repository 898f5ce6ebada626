/** Signed events as they arrive from a relay, and how their tags are read. */
module Events {
  import opened Wrappers
  import opened Keys
  import opened Limit

  const GRANT_KIND := 30198
  const SUBSCRIPTION_KIND := 30199
  const WALLET_REQUEST_KIND := 23194
  const CONTROL_REQUEST_KIND := 23198
  const NOTIFICATION_KIND := 23200

  type Tag = seq<string>

  datatype Event = Event(
    id: EventId, pubkey: PublicKey, kind: nat, createdAt: u64, tags: seq<Tag>, content: string)

  predicate TagIs(tag: Tag, name: string, value: string) {
    |tag| >= 2 && tag[0] == name && tag[1] == value
  }

  predicate HasTag(e: Event, name: string, value: string) {
    exists i :: 0 <= i < |e.tags| && TagIs(e.tags[i], name, value)
  }

  /** The first tag of that name that carries a value. */
  function FirstValue(tags: seq<Tag>, name: string): Option<string> {
    if tags == [] then None
    else if |tags[0]| >= 2 && tags[0][0] == name then Some(tags[0][1])
    else FirstValue(tags[1..], name)
  }

  ghost predicate FirstAt(tags: seq<Tag>, name: string, value: string, i: nat) {
    i < |tags| && TagIs(tags[i], name, value) &&
    forall j :: 0 <= j < i ==> |tags[j]| < 2 || tags[j][0] != name
  }

  lemma {:induction false} FirstValueIsFirst(tags: seq<Tag>, name: string, value: string)
    ensures FirstValue(tags, name) == Some(value) <==> exists i: nat :: FirstAt(tags, name, value, i)
  {
    if tags != [] {
      FirstValueIsFirst(tags[1..], name, value);
      if |tags[0]| >= 2 && tags[0][0] == name {
        assert tags[0][1] == value ==> FirstAt(tags, name, value, 0);
      } else {
        if i: nat :| FirstAt(tags[1..], name, value, i) {
          assert FirstAt(tags, name, value, i + 1);
        }
        if i: nat :| FirstAt(tags, name, value, i) {
          assert FirstAt(tags[1..], name, value, i - 1);
        }
      }
    }
  }

  /** Everything before the first separator, and everything after it. */
  function SplitOnce<T(==)>(s: seq<T>, separator: T): Option<(seq<T>, seq<T>)> {
    if s == [] then None
    else if s[0] == separator then Some(([], s[1..]))
    else
      match SplitOnce(s[1..], separator)
      case None => None
      case Some((before, after)) => Some(([s[0]] + before, after))
  }

  lemma {:induction false} SplitOnceFinds<T>(before: seq<T>, separator: T, after: seq<T>)
    requires separator !in before
    ensures SplitOnce(before + [separator] + after, separator) == Some((before, after))
  {
    var s := before + [separator] + after;
    if before == [] {
      assert s[1..] == after;
    } else {
      SplitOnceFinds(before[1..], separator, after);
      assert s[1..] == before[1..] + [separator] + after;
      assert [before[0]] + before[1..] == before;
    }
  }

  lemma {:induction false} SplitOnceSound<T>(s: seq<T>, separator: T)
    ensures match SplitOnce(s, separator)
            case None => separator !in s
            case Some((before, after)) => separator !in before && s == before + [separator] + after
  {
    if s != [] && s[0] != separator {
      SplitOnceSound(s[1..], separator);
    }
  }
}
