/** The poll records of backend/server.js and the pure logic the socket handlers
    run on them: option normalisation, the timer default, `Array.prototype.find`
    by poll id and by option text, the vote increment and the `{ text: votes }`
    tally. */
module Polls {
  import opened Wrappers

  /** The result of JavaScript's `Number(x)`: not a number, or an integer. */
  datatype NumberValue = NaN | Num(n: int)

  /** One option as a client sends it: every field may be missing. */
  datatype OptionInput = OptionInput(id: Option<int>, text: Option<string>, correct: Option<bool>)

  /** One option as stored: `correct` is `true`, `false` or `null` (None). */
  datatype PollOption = PollOption(id: int, text: string, correct: Option<bool>, votes: nat)

  datatype Poll = Poll(
    id: string,
    question: string,
    options: seq<PollOption>,
    timer: int,
    teacherUsername: string,
    createdAt: string,
    closed: bool)

  /** The timer used when the requested one is `0` or not a number. */
  const DEFAULT_TIMER: int := 60

  /** `Number(pollData.timer) || 60`. */
  function EffectiveTimer(t: NumberValue): (r: int)
    ensures r != 0
    ensures t.Num? && t.n != 0 ==> r == t.n
    ensures t.NaN? || t.n == 0 ==> r == DEFAULT_TIMER
  {
    match t
    case NaN => DEFAULT_TIMER
    case Num(n) => if n == 0 then DEFAULT_TIMER else n
  }

  /** The sum of the vote counts of a list of options. */
  function TotalVotes(opts: seq<PollOption>): nat {
    if opts == [] then 0 else opts[0].votes + TotalVotes(opts[1..])
  }

  lemma {:induction false} NoVotesTotalZero(opts: seq<PollOption>)
    requires forall i :: 0 <= i < |opts| ==> opts[i].votes == 0
    ensures TotalVotes(opts) == 0
  {
    if opts != [] {
      NoVotesTotalZero(opts[1..]);
    }
  }

  function NormalizeOption(o: OptionInput, idx: nat): PollOption {
    PollOption(o.id.GetOr(idx + 1), o.text.GetOr(""), o.correct, 0)
  }

  /** The `options.map((opt, idx) => ...)` of `createPoll`: same length and order,
      missing ids numbered from 1 by position, missing text empty, missing `correct`
      null, and no votes. */
  function NormalizeOptions(opts: seq<OptionInput>): (r: seq<PollOption>)
    ensures |r| == |opts|
    ensures forall i :: 0 <= i < |r| ==>
      && r[i].votes == 0
      && r[i].id == (if opts[i].id.Some? then opts[i].id.value else i + 1)
      && r[i].text == (if opts[i].text.Some? then opts[i].text.value else "")
      && r[i].correct == opts[i].correct
    ensures TotalVotes(r) == 0
  {
    var r := seq(|opts|, i requires 0 <= i < |opts| => NormalizeOption(opts[i], i));
    NoVotesTotalZero(r);
    r
  }

  /** The poll record `createPoll` builds; `options` is None when the payload has none. */
  function NewPoll(id: string, question: string, options: Option<seq<OptionInput>>, timer: NumberValue,
                   teacherUsername: string, createdAt: string): (p: Poll)
    ensures p.id == id && !p.closed && p.timer != 0
    ensures p.options == NormalizeOptions(options.GetOr([])) && p.timer == EffectiveTimer(timer)
    ensures p.question == question && p.teacherUsername == teacherUsername && p.createdAt == createdAt
    ensures |p.options| == (if options.Some? then |options.value| else 0)
    ensures TotalVotes(p.options) == 0
  {
    Poll(id, question, NormalizeOptions(options.GetOr([])), EffectiveTimer(timer),
         teacherUsername, createdAt, false)
  }

  /** `Array.prototype.findIndex`: the first position whose element satisfies `p`. */
  function FindIndex<T>(s: seq<T>, p: T -> bool): (r: Option<nat>)
    ensures r.Some? ==> r.value < |s| && p(s[r.value]) && forall j :: 0 <= j < r.value ==> !p(s[j])
    ensures r.None? ==> forall j :: 0 <= j < |s| ==> !p(s[j])
  {
    if s == [] then None
    else if p(s[0]) then Some(0)
    else match FindIndex(s[1..], p)
      case None => None
      case Some(k) => Some(k + 1)
  }

  /** `polls.find((p) => p._id === pollId)`, as a position. */
  function FindPoll(polls: seq<Poll>, id: string): (r: Option<nat>)
    ensures r.Some? ==> r.value < |polls| && polls[r.value].id == id
    ensures r.Some? ==> forall j :: 0 <= j < r.value ==> polls[j].id != id
    ensures r.None? <==> forall j :: 0 <= j < |polls| ==> polls[j].id != id
  {
    FindIndex(polls, (p: Poll) => p.id == id)
  }

  /** `options.find((o) => o.text === option)`, as a position: case-sensitive exact match. */
  function FindOption(opts: seq<PollOption>, text: string): (r: Option<nat>)
    ensures r.Some? ==> r.value < |opts| && opts[r.value].text == text
    ensures r.Some? ==> forall j :: 0 <= j < r.value ==> opts[j].text != text
    ensures r.None? <==> forall j :: 0 <= j < |opts| ==> opts[j].text != text
  {
    FindIndex(opts, (o: PollOption) => o.text == text)
  }

  /** No two stored polls share an id. */
  ghost predicate UniqueIds(polls: seq<Poll>) {
    forall i, j :: 0 <= i < j < |polls| ==> polls[i].id != polls[j].id
  }

  /** The ids of the stored polls that are not closed. */
  ghost function OpenIds(polls: seq<Poll>): set<string> {
    set i | 0 <= i < |polls| && !polls[i].closed :: polls[i].id
  }

  /** Appending a poll adds its id to the open ones exactly when it is not closed. */
  lemma OpenIdsAppend(polls: seq<Poll>, p: Poll)
    ensures OpenIds(polls + [p]) == if p.closed then OpenIds(polls) else OpenIds(polls) + {p.id}
  {
    var after := polls + [p];
    forall t | t in OpenIds(after) ensures t in OpenIds(polls) || (!p.closed && t == p.id) {
      var i :| 0 <= i < |after| && !after[i].closed && after[i].id == t;
      if i < |polls| { assert after[i] == polls[i]; }
    }
    forall t | t in OpenIds(polls) ensures t in OpenIds(after) {
      var i :| 0 <= i < |polls| && !polls[i].closed && polls[i].id == t;
      assert after[i] == polls[i];
    }
    if !p.closed {
      assert after[|polls|] == p;
    }
  }

  /** Appending a poll under another id does not change where a lookup of `id`
      lands, so a poll found closed is still found, closed, after later polls are
      created. */
  lemma FindPollAppendOther(polls: seq<Poll>, p: Poll, id: string)
    requires p.id != id
    ensures FindPoll(polls + [p], id) == FindPoll(polls, id)
  {
    var after := polls + [p];
    assert forall j :: 0 <= j < |polls| ==> after[j] == polls[j];
    assert after[|polls|].id != id;
  }

  /** Appending a poll with a fresh id keeps the ids unique, and a lookup of that id
      then finds the new last position. */
  lemma AppendFreshId(polls: seq<Poll>, p: Poll)
    requires UniqueIds(polls) && FindPoll(polls, p.id).None?
    ensures UniqueIds(polls + [p])
    ensures FindPoll(polls + [p], p.id) == Some(|polls|)
  {
    var after := polls + [p];
    forall i, j | 0 <= i < j < |after| ensures after[i].id != after[j].id {
      if j < |polls| { assert after[i] == polls[i] && after[j] == polls[j]; }
      else { assert after[i] == polls[i]; }
    }
    assert after[|polls|].id == p.id;
    assert forall j :: 0 <= j < |polls| ==> after[j].id != p.id by {
      forall j | 0 <= j < |polls| ensures after[j].id != p.id { assert after[j] == polls[j]; }
    }
  }

  /** Replacing a stored poll by one with the same id keeps the ids unique, and the
      id is open afterwards exactly when the new record is not closed. */
  lemma OpenIdsUpdate(polls: seq<Poll>, i: nat, q: Poll)
    requires UniqueIds(polls) && i < |polls| && q.id == polls[i].id
    ensures UniqueIds(polls[i := q])
    ensures OpenIds(polls[i := q]) == if q.closed then OpenIds(polls) - {q.id} else OpenIds(polls) + {q.id}
  {
    var after := polls[i := q];
    forall t | t in OpenIds(after)
      ensures t in (if q.closed then OpenIds(polls) - {q.id} else OpenIds(polls) + {q.id})
    {
      var j :| 0 <= j < |after| && !after[j].closed && after[j].id == t;
    }
    forall t | t in OpenIds(polls) && t != q.id ensures t in OpenIds(after) {
      var j :| 0 <= j < |polls| && !polls[j].closed && polls[j].id == t;
      assert after[j] == polls[j];
    }
    if !q.closed {
      assert after[i] == q;
    }
  }

  /** `opt.votes = (opt.votes || 0) + 1` on the option at position `k`. */
  function CastVote(p: Poll, k: nat): (q: Poll)
    requires k < |p.options|
    ensures q == p.(options := q.options)
    ensures |q.options| == |p.options|
    ensures q.options[k] == p.options[k].(votes := p.options[k].votes + 1)
    ensures forall j :: 0 <= j < |p.options| && j != k ==> q.options[j] == p.options[j]
    ensures TotalVotes(q.options) == TotalVotes(p.options) + 1
  {
    var opts := p.options[k := p.options[k].(votes := p.options[k].votes + 1)];
    VoteAddsOne(p.options, k);
    p.(options := opts)
  }

  /** Raising one option's count by one raises the total by exactly one. */
  lemma {:induction false} VoteAddsOne(opts: seq<PollOption>, k: nat)
    requires k < |opts|
    ensures TotalVotes(opts[k := opts[k].(votes := opts[k].votes + 1)]) == TotalVotes(opts) + 1
  {
    var after := opts[k := opts[k].(votes := opts[k].votes + 1)];
    if k > 0 {
      VoteAddsOne(opts[1..], k - 1);
      assert after[1..] == opts[1..][k - 1 := opts[k].(votes := opts[k].votes + 1)];
    } else {
      assert after[1..] == opts[1..];
    }
  }

  // ---------------------------------------------------------------------------
  // The vote map `{ [text]: votes }`

  /** The one property name a plain JavaScript object does not store as its own:
      assigning a number to `__proto__` runs the prototype setter, which ignores it. */
  const PROTO_KEY: string := "__proto__"

  /** `voteMap[key] = value` on a plain object. */
  function SetKey(m: map<string, nat>, key: string, value: nat): (r: map<string, nat>)
    ensures forall k :: k in m && k != key ==> k in r && r[k] == m[k]
    ensures r.Keys <= m.Keys + {key}
    ensures key != PROTO_KEY ==> key in r && r[key] == value
    ensures key == PROTO_KEY ==> r == m
  {
    if key == PROTO_KEY then m else m[key := value]
  }

  /** The vote map built by `options.forEach((o) => (voteMap[o.text] = o.votes || 0))`:
      one assignment per option, in order, so a later option overwrites an earlier
      one with the same text. */
  function Tally(opts: seq<PollOption>): (r: map<string, nat>)
    ensures PROTO_KEY !in r
  {
    if opts == [] then map[]
    else
      var last := opts[|opts| - 1];
      SetKey(Tally(opts[..|opts| - 1]), last.text, last.votes)
  }

  /** No option after position `i` has the text of option `i`. */
  ghost predicate IsLastWithText(opts: seq<PollOption>, i: int)
    requires 0 <= i < |opts|
  {
    forall j :: i < j < |opts| ==> opts[j].text != opts[i].text
  }

  /** Every option text other than `__proto__` is a key of the tally. */
  lemma {:induction false} TallyHasText(opts: seq<PollOption>, i: nat)
    requires i < |opts| && opts[i].text != PROTO_KEY
    ensures opts[i].text in Tally(opts)
  {
    var n := |opts| - 1;
    if i < n {
      TallyHasText(opts[..n], i);
    }
  }

  /** Every key of the tally is the text of some option, and never `__proto__`. */
  lemma {:induction false} TallyKeyIsText(opts: seq<PollOption>, t: string)
    requires t in Tally(opts)
    ensures t != PROTO_KEY && exists i :: 0 <= i < |opts| && opts[i].text == t
  {
    var n := |opts| - 1;
    if t != opts[n].text || t == PROTO_KEY {
      TallyKeyIsText(opts[..n], t);
      var i :| 0 <= i < n && opts[..n][i].text == t;
      assert opts[i].text == t;
    }
  }

  /** The entry for a text holds the votes of the last option carrying it. */
  lemma {:induction false} TallyLastWins(opts: seq<PollOption>, i: nat)
    requires i < |opts| && opts[i].text != PROTO_KEY && IsLastWithText(opts, i)
    ensures opts[i].text in Tally(opts) && Tally(opts)[opts[i].text] == opts[i].votes
  {
    var n := |opts| - 1;
    if i < n {
      assert IsLastWithText(opts[..n], i);
      TallyLastWins(opts[..n], i);
    }
  }

  /** The tally has a key for every option text except `__proto__`, and maps it to
      the votes of the last option carrying that text. */
  lemma TallyMeaning(opts: seq<PollOption>)
    ensures forall t :: t in Tally(opts) <==>
      t != PROTO_KEY && exists i :: 0 <= i < |opts| && opts[i].text == t
    ensures forall i :: 0 <= i < |opts| && opts[i].text != PROTO_KEY && IsLastWithText(opts, i) ==>
      Tally(opts)[opts[i].text] == opts[i].votes
  {
    forall t | t in Tally(opts) ensures t != PROTO_KEY && exists i :: 0 <= i < |opts| && opts[i].text == t {
      TallyKeyIsText(opts, t);
    }
    forall i | 0 <= i < |opts| && opts[i].text != PROTO_KEY ensures opts[i].text in Tally(opts) {
      TallyHasText(opts, i);
    }
    forall i | 0 <= i < |opts| && opts[i].text != PROTO_KEY && IsLastWithText(opts, i)
      ensures Tally(opts)[opts[i].text] == opts[i].votes
    {
      TallyLastWins(opts, i);
    }
  }

  /** Changing the votes of one option leaves the tally's keys alone and every
      entry for another text unchanged. */
  lemma {:induction false} TallyOtherTexts(opts: seq<PollOption>, k: nat, votes: nat)
    requires k < |opts|
    ensures Tally(opts[k := opts[k].(votes := votes)]).Keys == Tally(opts).Keys
    ensures forall t :: t in Tally(opts) && t != opts[k].text ==>
      Tally(opts[k := opts[k].(votes := votes)])[t] == Tally(opts)[t]
  {
    var after := opts[k := opts[k].(votes := votes)];
    var n := |opts| - 1;
    if k == n {
      assert after[..n] == opts[..n];
    } else {
      TallyOtherTexts(opts[..n], k, votes);
      assert after[..n] == opts[..n][k := opts[k].(votes := votes)];
    }
  }

  /** A vote for a text no later option repeats shows in the emitted tally: that
      text's count goes up by one and every other entry stays as it was. */
  lemma VoteShowsInTally(opts: seq<PollOption>, text: string)
    requires FindOption(opts, text).Some? && text != PROTO_KEY
    requires IsLastWithText(opts, FindOption(opts, text).value)
    ensures var k := FindOption(opts, text).value;
      var after := opts[k := opts[k].(votes := opts[k].votes + 1)];
      && Tally(after).Keys == Tally(opts).Keys
      && text in Tally(opts)
      && Tally(after)[text] == Tally(opts)[text] + 1
      && forall t :: t in Tally(opts) && t != text ==> Tally(after)[t] == Tally(opts)[t]
  {
    var k := FindOption(opts, text).value;
    var after := opts[k := opts[k].(votes := opts[k].votes + 1)];
    TallyOtherTexts(opts, k, opts[k].votes + 1);
    TallyLastWins(opts, k);
    assert IsLastWithText(after, k);
    TallyLastWins(after, k);
  }

  /** With two options of the same text, a vote for that text goes to the first one
      but the tally reports the last one, so the emitted count does not move. */
  lemma DuplicateTextHidesVote(opts: seq<PollOption>, text: string, j: nat)
    requires FindOption(opts, text).Some? && text != PROTO_KEY
    requires FindOption(opts, text).value < j < |opts| && opts[j].text == text
    ensures var k := FindOption(opts, text).value;
      var after := opts[k := opts[k].(votes := opts[k].votes + 1)];
      text in Tally(opts) && text in Tally(after) && Tally(after)[text] == Tally(opts)[text]
  {
    var k := FindOption(opts, text).value;
    var after := opts[k := opts[k].(votes := opts[k].votes + 1)];
    var last := LastWithText(opts, j);
    TallyLastWins(opts, last);
    assert after[last] == opts[last];
    assert IsLastWithText(after, last);
    TallyLastWins(after, last);
  }

  /** The position of the last option whose text is that of option `j`. */
  ghost function LastWithText(opts: seq<PollOption>, j: nat): (l: nat)
    requires j < |opts|
    ensures j <= l < |opts| && opts[l].text == opts[j].text && IsLastWithText(opts, l)
    decreases |opts| - j
  {
    if exists m :: j < m < |opts| && opts[m].text == opts[j].text then
      var m :| j < m < |opts| && opts[m].text == opts[j].text;
      LastWithText(opts, m)
    else j
  }
}
