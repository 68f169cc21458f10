/** Which broadcast requests a client takes, and in which order: the filter of `_read_req`. */
module Delivery {
  import opened Wrappers
  import opened Messages

  /** What `server_write_request` broadcasts. */
  predicate IsRequest(m: Message) {
    m.Single? && m.key == REQ_ACTION_REQUEST
  }

  /** A client takes shutdowns and the requests for its own actions. */
  predicate ForMe(actions: seq<string>, m: Message) {
    && IsRequest(m)
    && (m.body.requestType == REQ_ACTION_TYPE_SHUTDOWN || m.body.actionName in actions)
  }

  /** What `_read_req` keeps of an item that it has read. */
  function Taken(actions: seq<string>, m: Message): Option<Message> {
    if ForMe(actions, m) then Some(m) else None
  }

  function Mine(actions: seq<string>, ms: seq<Message>): seq<Message> {
    if ms == [] then []
    else
      var m := ms[|ms| - 1];
      Mine(actions, ms[..|ms| - 1]) + (if ForMe(actions, m) then [m] else [])
  }

  lemma {:induction false} MineConcat(actions: seq<string>, a: seq<Message>, b: seq<Message>)
    ensures Mine(actions, a + b) == Mine(actions, a) + Mine(actions, b)
  {
    if b == [] {
      assert a + b == a;
    } else {
      MineConcat(actions, a, b[..|b| - 1]);
      assert (a + b)[..|a + b| - 1] == a + b[..|b| - 1];
    }
  }

  lemma MineOne(actions: seq<string>, ms: seq<Message>, m: Message)
    ensures Mine(actions, ms + [m]) == Mine(actions, ms) + (if ForMe(actions, m) then [m] else [])
  {
    assert (ms + [m])[..|ms|] == ms;
  }

  /** s arises from t by leaving out elements. */
  predicate Subsequence(s: seq<Message>, t: seq<Message>) {
    s == [] ||
    (t != [] &&
     (Subsequence(s, t[..|t| - 1]) ||
      (s[|s| - 1] == t[|t| - 1] && Subsequence(s[..|s| - 1], t[..|t| - 1]))))
  }

  lemma {:induction false} SubsequenceTransitive(r: seq<Message>, s: seq<Message>, t: seq<Message>)
    requires Subsequence(r, s) && Subsequence(s, t)
    ensures Subsequence(r, t)
    decreases |s| + |t|
  {
    if r != [] {
      var t' := t[..|t| - 1];
      if Subsequence(s, t') {
        SubsequenceTransitive(r, s, t');
      } else if Subsequence(r, s[..|s| - 1]) {
        SubsequenceTransitive(r, s[..|s| - 1], t');
      } else {
        SubsequenceTransitive(r[..|r| - 1], s[..|s| - 1], t');
      }
    }
  }

  lemma {:induction false} PrefixIsSubsequence(s: seq<Message>, t: seq<Message>)
    requires s <= t
    ensures Subsequence(s, t)
    decreases |t|
  {
    if s != [] {
      if s == t {
        PrefixIsSubsequence(s[..|s| - 1], t[..|t| - 1]);
      } else {
        PrefixIsSubsequence(s, t[..|t| - 1]);
      }
    }
  }

  lemma {:induction false} MineIsSubsequence(actions: seq<string>, ms: seq<Message>)
    ensures Subsequence(Mine(actions, ms), ms)
    ensures forall m :: m in Mine(actions, ms) ==> ForMe(actions, m)
  {
    if ms != [] {
      var m := ms[|ms| - 1];
      MineIsSubsequence(actions, ms[..|ms| - 1]);
      if ForMe(actions, m) {
        assert Mine(actions, ms)[..|Mine(actions, ms)| - 1] == Mine(actions, ms[..|ms| - 1]);
      } else {
        assert Mine(actions, ms) == Mine(actions, ms[..|ms| - 1]);
      }
    }
  }

  /** The broadcasts that one client's ring had room for. */
  function Accepted(log: seq<Message>, room: seq<bool>): seq<Message>
    requires |room| == |log|
  {
    if log == [] then []
    else
      var n := |log| - 1;
      Accepted(log[..n], room[..n]) + (if room[n] then [log[n]] else [])
  }

  lemma {:induction false} AcceptedIsSubsequence(log: seq<Message>, room: seq<bool>)
    requires |room| == |log|
    ensures Subsequence(Accepted(log, room), log)
  {
    if log != [] {
      var n := |log| - 1;
      AcceptedIsSubsequence(log[..n], room[..n]);
      if room[n] {
        assert Accepted(log, room)[..|Accepted(log, room)| - 1] == Accepted(log[..n], room[..n]);
      } else {
        assert Accepted(log, room) == Accepted(log[..n], room[..n]);
      }
    }
  }

  /** A prefix of a client's share of the accepted broadcasts keeps their order and the filter. */
  lemma FilteredBroadcasts(log: seq<Message>, room: seq<bool>, actions: seq<string>, delivered: seq<Message>)
    requires |room| == |log|
    requires delivered <= Mine(actions, Accepted(log, room))
    ensures Subsequence(delivered, log)
    ensures forall m :: m in delivered ==> ForMe(actions, m)
  {
    var accepted := Accepted(log, room);
    AcceptedIsSubsequence(log, room);
    MineIsSubsequence(actions, accepted);
    PrefixIsSubsequence(delivered, Mine(actions, accepted));
    SubsequenceTransitive(delivered, Mine(actions, accepted), accepted);
    SubsequenceTransitive(delivered, accepted, log);
    assert forall m :: m in delivered ==> m in Mine(actions, accepted);
  }
}
