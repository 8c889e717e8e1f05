/** Pairing model-visible user messages with the prompts the user submitted: a one-pass greedy
    matcher that is in fact a maximum matching. */
module PromptPairing {
  import opened Options
  import opened Text
  import opened Words

  datatype Record = Record(lineNo: nat, role: string, text: string)

  // ---- parse_file: two lists in source order ----

  /** One rollout line after JSON decoding; every line that parse_file skips is `Skipped`. */
  datatype RolloutLine =
    | Skipped
    | UserEvent(message: Option<string>)
    | CompletedItem(id: Option<string>, content: string)
    | ModelMessage(role: string, content: string)

  predicate IsMessage(line: RolloutLine) {
    line.ModelMessage? && line.content != ""
  }

  predicate CompletesPrompt(line: RolloutLine) {
    line.CompletedItem? && line.id.Some? && line.id.value != "" && line.content != ""
  }

  /** A submitted prompt: a legacy event, or the first completed item with its id. */
  predicate IsSubmission(lines: seq<RolloutLine>, n: nat)
    requires n < |lines|
  {
    || (lines[n].UserEvent? && lines[n].message.Some?)
    || (CompletesPrompt(lines[n]) && forall k :: 0 <= k < n && CompletesPrompt(lines[k]) ==> lines[k].id != lines[n].id)
  }

  function SubmissionText(line: RolloutLine): (text: string) {
    if line.UserEvent? && line.message.Some? then line.message.value
    else if line.CompletedItem? then line.content else ""
  }

  ghost predicate InSourceOrder(records: seq<Record>) {
    forall i, j :: 0 <= i < j < |records| ==> records[i].lineNo < records[j].lineNo
  }

  function MessageAt(lines: seq<RolloutLine>, k: nat): (r: Record)
    requires k < |lines| && IsMessage(lines[k])
  {
    Record(k + 1, lines[k].role, lines[k].content)
  }

  function SubmissionAt(lines: seq<RolloutLine>, k: nat): (r: Record)
    requires k < |lines|
  {
    Record(k + 1, "user", SubmissionText(lines[k]))
  }

  predicate IsMessageRecord(lines: seq<RolloutLine>, n: nat, r: Record)
    requires n <= |lines|
  {
    1 <= r.lineNo <= n && IsMessage(lines[r.lineNo - 1]) && r == MessageAt(lines, r.lineNo - 1)
  }

  predicate IsSubmissionRecord(lines: seq<RolloutLine>, n: nat, r: Record)
    requires n <= |lines|
  {
    1 <= r.lineNo <= n && IsSubmission(lines, r.lineNo - 1) && r == SubmissionAt(lines, r.lineNo - 1)
  }

  function MessagesUpTo(lines: seq<RolloutLine>, n: nat): (records: seq<Record>)
    requires n <= |lines|
  {
    if n == 0 then []
    else
      MessagesUpTo(lines, n - 1)
      + (if IsMessage(lines[n - 1]) then [MessageAt(lines, n - 1)] else [])
  }

  function SubmissionsUpTo(lines: seq<RolloutLine>, n: nat): (records: seq<Record>)
    requires n <= |lines|
  {
    if n == 0 then []
    else
      SubmissionsUpTo(lines, n - 1)
      + (if IsSubmission(lines, n - 1) then [SubmissionAt(lines, n - 1)] else [])
  }

  /** The message list holds exactly the records of the message lines. */
  lemma {:induction false} MessageMembership(lines: seq<RolloutLine>, n: nat, r: Record)
    requires n <= |lines|
    ensures r in MessagesUpTo(lines, n) <==> IsMessageRecord(lines, n, r)
  {
    if n > 0 {
      MessageMembership(lines, n - 1, r);
    }
  }

  /** The prompt list holds exactly each legacy event and each id's first completed item. */
  lemma {:induction false} SubmissionMembership(lines: seq<RolloutLine>, n: nat, r: Record)
    requires n <= |lines|
    ensures r in SubmissionsUpTo(lines, n) <==> IsSubmissionRecord(lines, n, r)
  {
    if n > 0 {
      SubmissionMembership(lines, n - 1, r);
    }
  }

  lemma AppendKeepsOrder(records: seq<Record>, more: seq<Record>, n: nat)
    requires InSourceOrder(records) && |more| <= 1
    requires forall r :: r in records ==> r.lineNo < n
    requires forall r :: r in more ==> r.lineNo == n
    ensures InSourceOrder(records + more)
  {
    forall i, j | 0 <= i < j < |records + more| ensures (records + more)[i].lineNo < (records + more)[j].lineNo {
      assert records[i] in records;
      assert j < |records| ==> records[j] in records;
      assert j == |records| ==> more[0] in more;
    }
  }

  /** Both lists are in strictly increasing line order. */
  lemma {:induction false} ListsAreInSourceOrder(lines: seq<RolloutLine>, n: nat)
    requires n <= |lines|
    ensures InSourceOrder(MessagesUpTo(lines, n)) && InSourceOrder(SubmissionsUpTo(lines, n))
  {
    if n > 0 {
      ListsAreInSourceOrder(lines, n - 1);
      var messages, users := MessagesUpTo(lines, n - 1), SubmissionsUpTo(lines, n - 1);
      forall r | r in messages ensures r.lineNo < n {
        MessageMembership(lines, n - 1, r);
      }
      forall r | r in users ensures r.lineNo < n {
        SubmissionMembership(lines, n - 1, r);
      }
      AppendKeepsOrder(messages, if IsMessage(lines[n - 1]) then [MessageAt(lines, n - 1)] else [], n);
      AppendKeepsOrder(users, if IsSubmission(lines, n - 1) then [SubmissionAt(lines, n - 1)] else [], n);
    }
  }

  /** The ids of the completed prompts among the first `n` lines. */
  function IdsUpTo(lines: seq<RolloutLine>, n: nat): (ids: set<string>)
    requires n <= |lines|
  {
    if n == 0 then {}
    else IdsUpTo(lines, n - 1) + (if CompletesPrompt(lines[n - 1]) then {lines[n - 1].id.value} else {})
  }

  lemma {:induction false} IdsAreExact(lines: seq<RolloutLine>, n: nat, id: string)
    requires n <= |lines|
    ensures id in IdsUpTo(lines, n) <==> exists k :: 0 <= k < n && CompletesPrompt(lines[k]) && lines[k].id == Some(id)
  {
    if n > 0 {
      IdsAreExact(lines, n - 1, id);
    }
  }

  /** `parse_file`: the set of ids seen so far tells a first completed item from a repeated one. */
  method ParseFile(lines: seq<RolloutLine>) returns (messages: seq<Record>, users: seq<Record>)
    ensures messages == MessagesUpTo(lines, |lines|)
    ensures users == SubmissionsUpTo(lines, |lines|)
  {
    messages, users := [], [];
    var seen: set<string> := {};
    for n := 0 to |lines|
      invariant messages == MessagesUpTo(lines, n)
      invariant users == SubmissionsUpTo(lines, n)
      invariant seen == IdsUpTo(lines, n)
    {
      match lines[n]
      case Skipped =>
      case UserEvent(message) =>
        if message.Some? {
          users := users + [Record(n + 1, "user", message.value)];
        }
      case CompletedItem(id, content) =>
        if id.Some? && id.value != "" && content != "" {
          IdsAreExact(lines, n, id.value);
          if id.value !in seen {
            users := users + [Record(n + 1, "user", content)];
            seen := seen + {id.value};
          }
        }
      case ModelMessage(role, content) =>
        if content != "" {
          messages := messages + [Record(n + 1, role, content)];
        }
    }
  }

  // ---- prompt identity ----

  /** The fixed texts of a hook-wrapped prompt. */
  datatype Hook = Hook(opening: string, rule: string, context: string)

  const USER_PROMPT_HOOK := Hook("UserPromptSubmit hook (completed)", "----", "hook context:")

  function ExtractWrappedUser(hook: Hook, text: string): (r: Option<string>) {
    if !StartsWith(LStrip(text), hook.opening) then None
    else
      var rule := Find(text, hook.rule, 0);
      if rule.Some? then Some(Strip(text[rule.value + |hook.rule|..]))
      else
        var context := Find(text, hook.context, 0);
        if context.Some? then Some(Strip(text[context.value + |hook.context|..])) else None
  }

  function IdentityOf(hook: Hook, text: string): (id: string) {
    var inner := ExtractWrappedUser(hook, text);
    CanonicalText(if inner.Some? && inner.value != "" then inner.value else text)
  }

  function UserPairIdentity(message: Record): (id: string) {
    IdentityOf(USER_PROMPT_HOOK, message.text)
  }

  function SubmittedIdentity(user: Record): (id: string) {
    CanonicalText(user.text)
  }

  /** `text` is `head`, the first `marker` in it, and `prompt`. */
  predicate FirstMarker(text: string, marker: string, head: string, prompt: string) {
    text == head + marker + prompt && forall k: nat :: k < |head| ==> !OccursAt(text, marker, k)
  }

  /** A hook's text around a prompt: what follows the first rule or, without a rule, the first
      `hook context:`, when there is a word in it. */
  ghost predicate Wraps(hook: Hook, text: string, prompt: string) {
    && Opens(text, hook.opening) && SplitWords(prompt) != []
    && exists head :: || FirstMarker(text, hook.rule, head, prompt)
                      || (!Contains(text, hook.rule) && FirstMarker(text, hook.context, head, prompt))
  }

  lemma FirstMarkerFound(text: string, marker: string, head: string, prompt: string)
    requires FirstMarker(text, marker, head, prompt)
    ensures Find(text, marker, 0) == Some(|head|) && text[|head| + |marker|..] == prompt
  {
    assert text[|head|..|head| + |marker|] == marker;
    assert OccursAt(text, marker, |head|);
  }

  lemma FoundIsFirstMarker(text: string, marker: string)
    requires Find(text, marker, 0).Some?
    ensures var k := Find(text, marker, 0).value;
            FirstMarker(text, marker, text[..k], text[k + |marker|..])
  {
    var k := Find(text, marker, 0).value;
    assert text[k..k + |marker|] == marker;
    assert text == text[..k] + marker + text[k + |marker|..];
  }

  lemma WrappedIsExtracted(hook: Hook, text: string, prompt: string)
    requires hook.opening != "" && !IsSpace(hook.opening[0]) && Wraps(hook, text, prompt)
    ensures ExtractWrappedUser(hook, text) == Some(Strip(prompt))
  {
    LStripOpens(text, hook.opening);
    var head :| || FirstMarker(text, hook.rule, head, prompt)
                || (!Contains(text, hook.rule) && FirstMarker(text, hook.context, head, prompt));
    if FirstMarker(text, hook.rule, head, prompt) {
      FirstMarkerFound(text, hook.rule, head, prompt);
    } else {
      FirstMarkerFound(text, hook.context, head, prompt);
    }
  }

  lemma FoundIsWrapped(hook: Hook, text: string, marker: string) returns (prompt: string)
    requires Opens(text, hook.opening) && Find(text, marker, 0).Some?
    requires marker == hook.rule || (marker == hook.context && !Contains(text, hook.rule))
    requires Strip(text[Find(text, marker, 0).value + |marker|..]) != ""
    ensures Wraps(hook, text, prompt)
  {
    var k := Find(text, marker, 0).value;
    prompt := text[k + |marker|..];
    FoundIsFirstMarker(text, marker);
    StripEmptyIff(prompt);
  }

  lemma NotFound(text: string, marker: string)
    ensures Contains(text, marker) <==> Find(text, marker, 0).Some?
  {
  }

  lemma ExtractedAfter(hook: Hook, text: string) returns (marker: string)
    requires ExtractWrappedUser(hook, text).Some? && ExtractWrappedUser(hook, text).value != ""
    ensures marker == hook.rule || (marker == hook.context && !Contains(text, hook.rule))
    ensures Find(text, marker, 0).Some? && Strip(text[Find(text, marker, 0).value + |marker|..]) != ""
  {
    NotFound(text, hook.rule);
    marker := if Find(text, hook.rule, 0).Some? then hook.rule else hook.context;
  }

  lemma ExtractedIsWrapped(hook: Hook, text: string) returns (prompt: string)
    requires hook.opening != "" && !IsSpace(hook.opening[0])
    requires ExtractWrappedUser(hook, text).Some? && ExtractWrappedUser(hook, text).value != ""
    ensures Wraps(hook, text, prompt)
  {
    var marker := ExtractedAfter(hook, text);
    LStripOpens(text, hook.opening);
    prompt := FoundIsWrapped(hook, text, marker);
  }

  lemma WrappedIdentity(hook: Hook, text: string, prompt: string, other: string)
    requires hook.opening != "" && !IsSpace(hook.opening[0]) && Wraps(hook, text, prompt)
    ensures IdentityOf(hook, text) == CanonicalText(other) <==> SplitWords(prompt) == SplitWords(other)
  {
    WrappedIsExtracted(hook, text, prompt);
    StripEmptyIff(prompt);
    StripKeepsWords(prompt);
    CanonicalIsWords(Strip(prompt), other);
  }

  lemma UnwrappedIdentity(hook: Hook, text: string, other: string)
    requires hook.opening != "" && !IsSpace(hook.opening[0]) && forall prompt :: !Wraps(hook, text, prompt)
    ensures IdentityOf(hook, text) == CanonicalText(other) <==> SplitWords(text) == SplitWords(other)
  {
    var inner := ExtractWrappedUser(hook, text);
    if inner.Some? && inner.value != "" {
      var prompt := ExtractedIsWrapped(hook, text);
      assert false;
    }
    CanonicalIsWords(text, other);
  }

  /** A hook-wrapped message pairs with a prompt exactly when the prompt inside has the same words,
      whatever the hook printed around it and however the white space differs. */
  lemma WrappedPromptIdentity(message: Record, prompt: string, user: Record)
    requires Wraps(Hook("UserPromptSubmit hook (completed)", "----", "hook context:"), message.text, prompt)
    ensures UserPairIdentity(message) == SubmittedIdentity(user) <==> SplitWords(prompt) == SplitWords(user.text)
  {
    WrappedIdentity(USER_PROMPT_HOOK, message.text, prompt, user.text);
  }

  /** Any other message pairs with a prompt exactly when its whole text has the same words: one that
      does not open like a hook, one with neither marker, and one with no word after its marker. */
  lemma PlainPromptIdentity(message: Record, user: Record)
    requires var hook := Hook("UserPromptSubmit hook (completed)", "----", "hook context:");
             forall prompt :: !Wraps(hook, message.text, prompt)
    ensures UserPairIdentity(message) == SubmittedIdentity(user) <==> SplitWords(message.text) == SplitWords(user.text)
  {
    UnwrappedIdentity(USER_PROMPT_HOOK, message.text, user.text);
  }

  /** Such are: a message that does not open like a hook, ... */
  lemma NoHookWrapsNothing(hook: Hook, text: string, prompt: string)
    requires hook.opening != "" && !IsSpace(hook.opening[0]) && !StartsWith(LStrip(text), hook.opening)
    ensures !Wraps(hook, text, prompt)
  {
    LStripOpens(text, hook.opening);
  }

  /** ... one with neither marker, ... */
  lemma NoMarkerWrapsNothing(hook: Hook, text: string, prompt: string)
    requires !Contains(text, hook.rule) && !Contains(text, hook.context)
    ensures !Wraps(hook, text, prompt)
  {
    forall marker, head | FirstMarker(text, marker, head, prompt) ensures Contains(text, marker) {
      FirstMarkerFound(text, marker, head, prompt);
    }
  }

  lemma BlankIsExtracted(hook: Hook, text: string, marker: string, head: string, blank: string)
    requires marker == hook.rule || (marker == hook.context && !Contains(text, hook.rule))
    requires FirstMarker(text, marker, head, blank) && SplitWords(blank) == []
    ensures var inner := ExtractWrappedUser(hook, text); inner.None? || inner.value == ""
  {
    FirstMarkerFound(text, marker, head, blank);
    NotFound(text, hook.rule);
    StripEmptyIff(blank);
  }

  /** ... and one without a word after the first rule or, lacking a rule, the first `hook context:`. */
  lemma NoWordWrapsNothing(hook: Hook, text: string, marker: string, head: string, blank: string, prompt: string)
    requires hook.opening != "" && !IsSpace(hook.opening[0])
    requires marker == hook.rule || (marker == hook.context && !Contains(text, hook.rule))
    requires FirstMarker(text, marker, head, blank) && SplitWords(blank) == []
    ensures !Wraps(hook, text, prompt)
  {
    BlankIsExtracted(hook, text, marker, head, blank);
    StripEmptyIff(prompt);
    if Wraps(hook, text, prompt) {
      WrappedIsExtracted(hook, text, prompt);
      assert false;
    }
  }

  // ---- the greedy matcher ----

  /** How the two kinds of record are identified; the matcher depends on nothing else about text. */
  datatype Identity = Identity(message: Record -> string, user: Record -> string)

  function PromptIdentity(): (ids: Identity) {
    Identity(UserPairIdentity, SubmittedIdentity)
  }

  /** The message was not recorded after the prompt, and they are the same prompt. */
  predicate Eligible(ids: Identity, message: Record, user: Record) {
    message.lineNo <= user.lineNo && ids.message(message) == ids.user(user)
  }

  /** The first eligible unmatched message. */
  function FirstMatch(ids: Identity, unmatched: seq<Record>, user: Record): (r: Option<nat>)
    ensures r.Some? ==> r.value < |unmatched| && Eligible(ids, unmatched[r.value], user)
    ensures r.Some? ==> forall k :: 0 <= k < r.value ==> !Eligible(ids, unmatched[k], user)
    ensures r.None? ==> forall k :: 0 <= k < |unmatched| ==> !Eligible(ids, unmatched[k], user)
  {
    if unmatched == [] then None
    else if Eligible(ids, unmatched[0], user) then Some(0)
    else
      var r := FirstMatch(ids, unmatched[1..], user);
      if r.None? then None else Some(r.value + 1)
  }

  /** The message holds the prompt the user submitted: the one a hook wraps or, wrapping none, its own
      text, word for word. */
  ghost predicate SamePrompt(message: Record, user: Record) {
    var hook := Hook("UserPromptSubmit hook (completed)", "----", "hook context:");
    || (exists prompt :: Wraps(hook, message.text, prompt) && SplitWords(prompt) == SplitWords(user.text))
    || ((forall prompt :: !Wraps(hook, message.text, prompt)) && SplitWords(message.text) == SplitWords(user.text))
  }

  lemma EligibleIff(message: Record, user: Record)
    ensures Eligible(PromptIdentity(), message, user) <==> message.lineNo <= user.lineNo && SamePrompt(message, user)
  {
    if prompt :| Wraps(USER_PROMPT_HOOK, message.text, prompt) {
      forall inner | Wraps(USER_PROMPT_HOOK, message.text, inner)
        ensures UserPairIdentity(message) == SubmittedIdentity(user) <==> SplitWords(inner) == SplitWords(user.text)
      {
        WrappedPromptIdentity(message, inner, user);
      }
    } else {
      PlainPromptIdentity(message, user);
    }
  }

  function Pop(records: seq<Record>, k: nat): (r: seq<Record>)
    requires k < |records|
  {
    records[..k] + records[k + 1..]
  }

  /** The pairs the matcher makes, in event order. */
  function Greedy(ids: Identity, unmatched: seq<Record>, users: seq<Record>): (pairs: seq<(Record, Record)>) {
    if users == [] then []
    else
      var k := FirstMatch(ids, unmatched, users[0]);
      if k.None? then Greedy(ids, unmatched, users[1..])
      else [(unmatched[k.value], users[0])] + Greedy(ids, Pop(unmatched, k.value), users[1..])
  }

  function UserMessages(messages: seq<Record>): (r: seq<Record>) {
    if messages == [] then []
    else (if messages[0].role == "user" then [messages[0]] else []) + UserMessages(messages[1..])
  }

  function AsMap(pairs: seq<(Record, Record)>): (m: map<Record, Record>) {
    if pairs == [] then map[] else AsMap(pairs[..|pairs| - 1])[pairs[|pairs| - 1].0 := pairs[|pairs| - 1].1]
  }

  /** `pair_submitted_users`: the loop makes the greedy pairs. */
  method PairSubmittedUsers(messages: seq<Record>, users: seq<Record>) returns (pairs: map<Record, Record>)
    ensures pairs == AsMap(Greedy(PromptIdentity(), UserMessages(messages), users))
  {
    var ids := PromptIdentity();
    var unmatched := UserMessages(messages);
    pairs := map[];
    ghost var made: seq<(Record, Record)> := [];
    for i := 0 to |users|
      invariant pairs == AsMap(made)
      invariant Greedy(PromptIdentity(), UserMessages(messages), users) == made + Greedy(ids, unmatched, users[i..])
    {
      SliceStep(users, i);
      var k := FirstMatch(ids, unmatched, users[i]);
      if k.Some? {
        var message := unmatched[k.value];
        ghost var pair := (message, users[i]);
        Assoc(made, [pair], Greedy(ids, Pop(unmatched, k.value), users[i + 1..]));
        unmatched := Pop(unmatched, k.value);
        pairs := pairs[message := users[i]];
        made := made + [pair];
        assert made[..|made| - 1] + [pair] == made;
      }
    }
    assert users[|users|..] == [];
    Nil(made);
  }

  // ---- what the pairs satisfy ----

  /** A pairing of eligible records in which no record is used twice. */
  ghost predicate Legal(ids: Identity, pairs: set<(Record, Record)>, messages: seq<Record>, users: seq<Record>) {
    && (forall p <- pairs :: p.0 in messages && p.1 in users && Eligible(ids, p.0, p.1))
    && (forall p <- pairs, q <- pairs :: p.0 == q.0 || p.1 == q.1 ==> p == q)
  }

  function PairSet(pairs: seq<(Record, Record)>): (s: set<(Record, Record)>) {
    set p | p in pairs
  }

  lemma PopMembers(records: seq<Record>, k: nat)
    requires k < |records| && Distinct(records)
    ensures Distinct(Pop(records, k))
    ensures forall r :: r in Pop(records, k) <==> r in records && r != records[k]
  {
    var rest := Pop(records, k);
    forall r | r in records && r != records[k] ensures r in rest {
      var i :| 0 <= i < |records| && records[i] == r;
      assert i < k ==> rest[i] == r;
      assert i > k ==> rest[i - 1] == r;
    }
  }

  lemma RestMembers(records: seq<Record>)
    requires records != [] && Distinct(records)
    ensures Distinct(records[1..])
    ensures forall r :: r in records[1..] <==> r in records && r != records[0]
  {
    forall r | r in records && r != records[0] ensures r in records[1..] {
      var i :| 0 <= i < |records| && records[i] == r;
      assert records[1..][i - 1] == r;
    }
  }

  /** The greedy pairs are legal, and there are as many of them as there are pairs in the set. */
  lemma {:induction false} GreedyIsLegal(ids: Identity, unmatched: seq<Record>, users: seq<Record>)
    requires Distinct(unmatched) && Distinct(users)
    ensures var pairs := Greedy(ids, unmatched, users);
            Legal(ids, PairSet(pairs), unmatched, users) && |PairSet(pairs)| == |pairs|
    decreases |users|
  {
    if users != [] {
      RestMembers(users);
      var k := FirstMatch(ids, unmatched, users[0]);
      if k.None? {
        GreedyIsLegal(ids, unmatched, users[1..]);
      } else {
        PopMembers(unmatched, k.value);
        GreedyIsLegal(ids, Pop(unmatched, k.value), users[1..]);
        var rest := Greedy(ids, Pop(unmatched, k.value), users[1..]);
        var first := (unmatched[k.value], users[0]);
        assert PairSet([first] + rest) == {first} + PairSet(rest);
        assert first !in PairSet(rest);
      }
    }
  }

  // ---- the exchange argument ----

  function Touching(pairs: set<(Record, Record)>, m: Record, u: Record): (r: set<(Record, Record)>) {
    set p | p in pairs && (p.0 == m || p.1 == u)
  }

  function Avoiding(pairs: set<(Record, Record)>, m: Record, u: Record): (r: set<(Record, Record)>) {
    set p | p in pairs && p.0 != m && p.1 != u
  }

  /** Pairs that touch neither of two records stay legal without them. */
  lemma OthersAreLegal(ids: Identity, pairs: set<(Record, Record)>, messages: seq<Record>, users: seq<Record>, k: nat)
    requires Legal(ids, pairs, messages, users) && Distinct(messages) && Distinct(users)
    requires users != [] && k < |messages|
    ensures Legal(ids, Avoiding(pairs, messages[k], users[0]), Pop(messages, k), users[1..])
  {
    PopMembers(messages, k);
    RestMembers(users);
  }

  /** Turn any legal pairing into one that leaves the greedy pair's two records free, at the cost
      of one pair: when both are used, their partners can be paired with each other. */
  lemma Exchange(ids: Identity, pairs: set<(Record, Record)>, messages: seq<Record>, users: seq<Record>, k: nat)
    returns (rest: set<(Record, Record)>)
    requires Legal(ids, pairs, messages, users) && Distinct(messages) && Distinct(users)
    requires users != [] && k < |messages| && Eligible(ids, messages[k], users[0])
    requires forall u <- users :: users[0].lineNo <= u.lineNo
    ensures Legal(ids, rest, Pop(messages, k), users[1..])
    ensures |pairs| <= |rest| + 1
  {
    var m, u := messages[k], users[0];
    var touched, others := Touching(pairs, m, u), Avoiding(pairs, m, u);
    OthersAreLegal(ids, pairs, messages, users, k);
    SplitCount(pairs, m, u);
    if (forall p <- touched :: p.1 == u) || (forall p <- touched :: p.0 == m) {
      AtMostOne(ids, pairs, messages, users, touched, m, u);
      rest := others;
    } else {
      var p :| p in touched && p.1 != u;
      var q :| q in touched && q.0 != m;
      BothTouched(ids, pairs, messages, users, touched, p, q);
      rest := SwapPartners(ids, pairs, messages, users, k, p, q);
    }
  }

  /** The pairs that use either of two records are at most the two that use one each. */
  lemma BothTouched(ids: Identity, pairs: set<(Record, Record)>, messages: seq<Record>, users: seq<Record>,
                    touched: set<(Record, Record)>, p: (Record, Record), q: (Record, Record))
    requires Legal(ids, pairs, messages, users) && p in pairs && q in pairs && touched <= pairs
    requires forall o <- touched :: o.0 == p.0 || o.1 == q.1
    ensures |touched| <= 2
  {
    forall o | o in touched ensures o == p || o == q {
    }
    AtMostTwo(touched, p, q);
  }

  lemma AtMostTwo(s: set<(Record, Record)>, p: (Record, Record), q: (Record, Record))
    requires forall o <- s :: o == p || o == q
    ensures |s| <= 2
  {
    var rest := s - {p} - {q};
    assert rest == {};
    assert |s - {p}| <= |rest| + 1;
  }

  lemma SplitCount(pairs: set<(Record, Record)>, m: Record, u: Record)
    ensures |pairs| == |Touching(pairs, m, u)| + |Avoiding(pairs, m, u)|
  {
    assert pairs == Touching(pairs, m, u) + Avoiding(pairs, m, u);
  }

  /** Pairs that all use one message, or all use one prompt, are one pair. */
  lemma AtMostOne(ids: Identity, pairs: set<(Record, Record)>, messages: seq<Record>, users: seq<Record>,
                  touched: set<(Record, Record)>, m: Record, u: Record)
    requires Legal(ids, pairs, messages, users) && touched <= pairs
    requires (forall p <- touched :: p.1 == u) || (forall p <- touched :: p.0 == m)
    ensures |touched| <= 1
  {
    if touched != {} {
      var p :| p in touched;
      assert forall o <- touched :: o == p;
      assert touched == {p};
    }
  }

  lemma AddPair(ids: Identity, pairs: set<(Record, Record)>, pair: (Record, Record), messages: seq<Record>,
                users: seq<Record>)
    requires Legal(ids, pairs, messages, users)
    requires pair.0 in messages && pair.1 in users && Eligible(ids, pair.0, pair.1)
    requires forall o <- pairs :: o.0 != pair.0 && o.1 != pair.1
    ensures Legal(ids, pairs + {pair}, messages, users) && |pairs + {pair}| == |pairs| + 1
  {
  }

  lemma SwapPartners(ids: Identity, pairs: set<(Record, Record)>, messages: seq<Record>, users: seq<Record>, k: nat,
                     p: (Record, Record), q: (Record, Record))
    returns (rest: set<(Record, Record)>)
    requires Legal(ids, pairs, messages, users) && Distinct(messages) && Distinct(users)
    requires users != [] && k < |messages| && Eligible(ids, messages[k], users[0])
    requires forall u <- users :: users[0].lineNo <= u.lineNo
    requires p in pairs && p.0 == messages[k] && p.1 != users[0] && q in pairs && q.1 == users[0] && q.0 != messages[k]
    ensures Legal(ids, rest, Pop(messages, k), users[1..])
    ensures |rest| == |Avoiding(pairs, messages[k], users[0])| + 1
  {
    var others := Avoiding(pairs, messages[k], users[0]);
    OthersAreLegal(ids, pairs, messages, users, k);
    PopMembers(messages, k);
    RestMembers(users);
    AddPair(ids, others, (q.0, p.1), Pop(messages, k), users[1..]);
    rest := others + {(q.0, p.1)};
  }

  /** No legal pairing is larger than the greedy one. */
  lemma {:induction false} GreedyIsMaximum(ids: Identity, pairs: set<(Record, Record)>, messages: seq<Record>,
                                           users: seq<Record>)
    requires Legal(ids, pairs, messages, users) && Distinct(messages) && Distinct(users)
    requires forall i, j :: 0 <= i < j < |users| ==> users[i].lineNo <= users[j].lineNo
    ensures |pairs| <= |Greedy(ids, messages, users)|
    decreases |users|
  {
    if users == [] {
      assert pairs == {};
    } else {
      RestMembers(users);
      var k := FirstMatch(ids, messages, users[0]);
      if k.None? {
        assert forall p <- pairs :: p.1 != users[0];
        GreedyIsMaximum(ids, pairs, messages, users[1..]);
      } else {
        PopMembers(messages, k.value);
        var rest := Exchange(ids, pairs, messages, users, k.value);
        GreedyIsMaximum(ids, rest, Pop(messages, k.value), users[1..]);
      }
    }
  }

  // ---- first in, first out ----

  /** No message and prompt that could be paired are both better off without their partners: the
      message went to a prompt no later, or the prompt took a message no later. */
  predicate Settles(pair: (Record, Record), m: Record, u: Record) {
    (pair.0 == m && pair.1.lineNo <= u.lineNo) || (pair.1 == u && pair.0.lineNo <= m.lineNo)
  }

  predicate Settled(pairs: seq<(Record, Record)>, m: Record, u: Record) {
    exists i :: 0 <= i < |pairs| && Settles(pairs[i], m, u)
  }

  lemma SettledLater(pair: (Record, Record), pairs: seq<(Record, Record)>, m: Record, u: Record)
    requires Settled(pairs, m, u)
    ensures Settled([pair] + pairs, m, u)
  {
    var i :| 0 <= i < |pairs| && Settles(pairs[i], m, u);
    assert ([pair] + pairs)[i + 1] == pairs[i];
  }

  /** Every eligible message and prompt are settled. */
  lemma {:induction false} GreedyIsStable(ids: Identity, unmatched: seq<Record>, users: seq<Record>, m: Record,
                                          u: Record)
    requires InSourceOrder(unmatched) && InSourceOrder(users)
    requires m in unmatched && u in users && Eligible(ids, m, u)
    ensures Settled(Greedy(ids, unmatched, users), m, u)
    decreases |users|
  {
    OrderedIsDistinct(users);
    OrderedIsDistinct(unmatched);
    RestMembers(users);
    var k := FirstMatch(ids, unmatched, users[0]);
    var j :| 0 <= j < |unmatched| && unmatched[j] == m;
    if k.None? {
      GreedyIsStable(ids, unmatched, users[1..], m, u);
    } else {
      var first, rest := (unmatched[k.value], users[0]), Greedy(ids, Pop(unmatched, k.value), users[1..]);
      assert Greedy(ids, unmatched, users) == [first] + rest;
      if u == users[0] || m == first.0 {
        assert ([first] + rest)[0] == first;
        FirstSettles(users, u);
      } else {
        PopMembers(unmatched, k.value);
        PopKeepsOrder(unmatched, k.value);
        GreedyIsStable(ids, Pop(unmatched, k.value), users[1..], m, u);
        SettledLater(first, rest, m, u);
      }
    }
  }

  lemma FirstSettles(users: seq<Record>, u: Record)
    requires InSourceOrder(users) && u in users
    ensures users[0].lineNo <= u.lineNo
  {
    var i :| 0 <= i < |users| && users[i] == u;
  }

  lemma OrderedIsDistinct(records: seq<Record>)
    requires InSourceOrder(records)
    ensures Distinct(records)
  {
  }

  lemma PopKeepsOrder(records: seq<Record>, k: nat)
    requires k < |records| && InSourceOrder(records)
    ensures InSourceOrder(Pop(records, k))
  {
    var rest := Pop(records, k);
    forall i, j | 0 <= i < j < |rest| ensures rest[i].lineNo < rest[j].lineNo {
      assert rest[i] == (if i < k then records[i] else records[i + 1]);
      assert rest[j] == (if j < k then records[j] else records[j + 1]);
    }
  }

  /** An eligible message that the first match passed over was recorded later. */
  lemma LaterThanFirst(ids: Identity, unmatched: seq<Record>, user: Record, other: Record)
    requires InSourceOrder(unmatched) && FirstMatch(ids, unmatched, user).Some?
    requires var first := unmatched[FirstMatch(ids, unmatched, user).value];
             other in unmatched && other != first && ids.message(other) == ids.message(first)
    ensures unmatched[FirstMatch(ids, unmatched, user).value].lineNo < other.lineNo
  {
    var k := FirstMatch(ids, unmatched, user).value;
    var i :| 0 <= i < |unmatched| && unmatched[i] == other;
  }

  /** Both records of a later pair of the first pair's identity are later. */
  lemma FirstPairIsFirst(ids: Identity, unmatched: seq<Record>, users: seq<Record>, b: nat)
    requires InSourceOrder(unmatched) && InSourceOrder(users) && users != []
    requires FirstMatch(ids, unmatched, users[0]).Some?
    requires var k := FirstMatch(ids, unmatched, users[0]).value;
             var rest := Greedy(ids, Pop(unmatched, k), users[1..]);
             b < |rest| && ids.message(unmatched[k]) == ids.message(rest[b].0)
    ensures var k := FirstMatch(ids, unmatched, users[0]).value;
            var rest := Greedy(ids, Pop(unmatched, k), users[1..]);
            unmatched[k].lineNo < rest[b].0.lineNo && users[0].lineNo < rest[b].1.lineNo
  {
    var k := FirstMatch(ids, unmatched, users[0]).value;
    var rest := Greedy(ids, Pop(unmatched, k), users[1..]);
    OrderedIsDistinct(users);
    OrderedIsDistinct(unmatched);
    RestMembers(users);
    PopMembers(unmatched, k);
    GreedyIsLegal(ids, Pop(unmatched, k), users[1..]);
    assert rest[b] in PairSet(rest);
    LaterThanFirst(ids, unmatched, users[0], rest[b].0);
    LaterUser(users, rest[b].1);
  }

  /** Within one identity, messages are consumed in the order they were recorded. */
  lemma {:induction false} GreedyIsFifo(ids: Identity, unmatched: seq<Record>, users: seq<Record>, a: nat, b: nat)
    requires InSourceOrder(unmatched) && InSourceOrder(users)
    requires var pairs := Greedy(ids, unmatched, users);
             a < b < |pairs| && ids.message(pairs[a].0) == ids.message(pairs[b].0)
    ensures var pairs := Greedy(ids, unmatched, users);
            pairs[a].0.lineNo < pairs[b].0.lineNo && pairs[a].1.lineNo < pairs[b].1.lineNo
    decreases |users|
  {
    var k := FirstMatch(ids, unmatched, users[0]);
    if k.None? {
      GreedyIsFifo(ids, unmatched, users[1..], a, b);
    } else {
      var rest := Greedy(ids, Pop(unmatched, k.value), users[1..]);
      assert Greedy(ids, unmatched, users) == [(unmatched[k.value], users[0])] + rest;
      if a > 0 {
        PopKeepsOrder(unmatched, k.value);
        GreedyIsFifo(ids, Pop(unmatched, k.value), users[1..], a - 1, b - 1);
      } else {
        FirstPairIsFirst(ids, unmatched, users, b - 1);
      }
    }
  }

  lemma LaterUser(users: seq<Record>, user: Record)
    requires users != [] && InSourceOrder(users) && user in users[1..]
    ensures users[0].lineNo < user.lineNo
  {
    var i :| 0 <= i < |users[1..]| && users[1..][i] == user;
    assert users[i + 1] == user;
  }

  // ---- a whole rollout file ----

  lemma PrependKeepsOrder(first: Record, rest: seq<Record>)
    requires InSourceOrder(rest) && forall r :: r in rest ==> first.lineNo < r.lineNo
    ensures InSourceOrder([first] + rest)
  {
    forall i, j | 0 <= i < j < |[first] + rest| ensures ([first] + rest)[i].lineNo < ([first] + rest)[j].lineNo {
      assert rest[j - 1] in rest;
    }
  }

  lemma {:induction false} UserMessageMembership(messages: seq<Record>, r: Record)
    ensures r in UserMessages(messages) <==> r in messages && r.role == "user"
  {
    if messages != [] {
      UserMessageMembership(messages[1..], r);
      Uncons(messages);
    }
  }

  lemma {:induction false} UserMessagesInOrder(messages: seq<Record>)
    requires InSourceOrder(messages)
    ensures InSourceOrder(UserMessages(messages))
  {
    if messages != [] {
      var rest := UserMessages(messages[1..]);
      UserMessagesInOrder(messages[1..]);
      forall r | r in rest ensures messages[0].lineNo < r.lineNo {
        UserMessageMembership(messages[1..], r);
        LaterUser(messages, r);
      }
      PrependKeepsOrder(messages[0], rest);
      Nil(rest);
    }
  }

  ghost predicate FirstsDistinct(pairs: seq<(Record, Record)>) {
    forall i, j :: 0 <= i < j < |pairs| ==> pairs[i].0 != pairs[j].0
  }

  function Entries(m: map<Record, Record>): (pairs: set<(Record, Record)>) {
    set r | r in m :: (r, m[r])
  }

  lemma EntriesAdd(m: map<Record, Record>, pair: (Record, Record))
    requires pair.0 !in m
    ensures Entries(m[pair.0 := pair.1]) == Entries(m) + {pair}
  {
    var n := m[pair.0 := pair.1];
    forall r | r in m ensures (r, m[r]) in Entries(n) {
      assert n[r] == m[r];
    }
    assert pair in Entries(n) by {
      assert n[pair.0] == pair.1;
    }
  }

  /** The dictionary holds exactly the pairs that were made. */
  lemma {:induction false} MapHoldsPairs(pairs: seq<(Record, Record)>)
    requires FirstsDistinct(pairs)
    ensures Entries(AsMap(pairs)) == PairSet(pairs) && |AsMap(pairs)| == |pairs|
  {
    if pairs != [] {
      var init, last := pairs[..|pairs| - 1], pairs[|pairs| - 1];
      MapHoldsPairs(init);
      assert pairs == init + [last];
      var m := AsMap(init);
      forall r | r in m ensures r != last.0 {
        assert (r, m[r]) in Entries(m);
      }
      EntriesAdd(m, last);
    }
  }

  /** A pairing of a rollout file: each pair joins a user message with a submitted prompt it holds and
      does not follow, and no record is used twice. */
  ghost predicate IsPairing(lines: seq<RolloutLine>, pairs: set<(Record, Record)>) {
    && (forall p <- pairs :: CanPair(lines, p.0, p.1))
    && (forall p <- pairs, q <- pairs :: p.0 == q.0 || p.1 == q.1 ==> p == q)
  }

  ghost predicate CanPair(lines: seq<RolloutLine>, message: Record, user: Record) {
    && IsMessageRecord(lines, |lines|, message) && message.role == "user" && IsSubmissionRecord(lines, |lines|, user)
    && message.lineNo <= user.lineNo && SamePrompt(message, user)
  }

  lemma CanPairIff(lines: seq<RolloutLine>, message: Record, user: Record)
    ensures CanPair(lines, message, user) <==>
            && message in UserMessages(MessagesUpTo(lines, |lines|)) && user in SubmissionsUpTo(lines, |lines|)
            && Eligible(PromptIdentity(), message, user)
  {
    UserMessageMembership(MessagesUpTo(lines, |lines|), message);
    MessageMembership(lines, |lines|, message);
    SubmissionMembership(lines, |lines|, user);
    EligibleIff(message, user);
  }

  lemma PairingIsLegal(lines: seq<RolloutLine>, pairs: set<(Record, Record)>)
    ensures IsPairing(lines, pairs) <==>
            Legal(PromptIdentity(), pairs, UserMessages(MessagesUpTo(lines, |lines|)), SubmissionsUpTo(lines, |lines|))
  {
    forall p | p in pairs
      ensures CanPair(lines, p.0, p.1) <==>
              && p.0 in UserMessages(MessagesUpTo(lines, |lines|)) && p.1 in SubmissionsUpTo(lines, |lines|)
              && Eligible(PromptIdentity(), p.0, p.1)
    {
      CanPairIff(lines, p.0, p.1);
    }
  }

  /** What `pair_submitted_users` returns for the records of a rollout file. */
  function PairsOf(lines: seq<RolloutLine>): (pairs: map<Record, Record>) {
    AsMap(Greedy(PromptIdentity(), UserMessages(MessagesUpTo(lines, |lines|)), SubmissionsUpTo(lines, |lines|)))
  }

  lemma ListsAreDistinct(lines: seq<RolloutLine>)
    ensures var messages, users := UserMessages(MessagesUpTo(lines, |lines|)), SubmissionsUpTo(lines, |lines|);
            InSourceOrder(messages) && InSourceOrder(users) && Distinct(messages) && Distinct(users)
  {
    ListsAreInSourceOrder(lines, |lines|);
    UserMessagesInOrder(MessagesUpTo(lines, |lines|));
    OrderedIsDistinct(UserMessages(MessagesUpTo(lines, |lines|)));
    OrderedIsDistinct(SubmissionsUpTo(lines, |lines|));
  }

  /** For every rollout file: what is returned is a pairing of the file, and none has more pairs. */
  lemma PairingIsMaximum(lines: seq<RolloutLine>, other: set<(Record, Record)>)
    requires IsPairing(lines, other)
    ensures IsPairing(lines, Entries(PairsOf(lines))) && |other| <= |PairsOf(lines)|
  {
    var messages, users := UserMessages(MessagesUpTo(lines, |lines|)), SubmissionsUpTo(lines, |lines|);
    var ids := PromptIdentity();
    ListsAreDistinct(lines);
    GreedyIsLegal(ids, messages, users);
    PairingIsLegal(lines, other);
    GreedyIsMaximum(ids, other, messages, users);
    MessagesUsedOnce(ids, messages, users);
    MapHoldsPairs(Greedy(ids, messages, users));
    PairingIsLegal(lines, Entries(PairsOf(lines)));
  }

  /** And it is stable: where a message and a prompt could be paired, the message went to a prompt no
      later than that one, or the prompt took a message no later. */
  lemma PairingIsStable(lines: seq<RolloutLine>, message: Record, user: Record)
    requires CanPair(lines, message, user)
    ensures exists p :: p in Entries(PairsOf(lines)) && Settles(p, message, user)
  {
    var messages, users := UserMessages(MessagesUpTo(lines, |lines|)), SubmissionsUpTo(lines, |lines|);
    var ids := PromptIdentity();
    ListsAreDistinct(lines);
    CanPairIff(lines, message, user);
    GreedyIsStable(ids, messages, users, message, user);
    MessagesUsedOnce(ids, messages, users);
    var pairs := Greedy(ids, messages, users);
    MapHoldsPairs(pairs);
    var i :| 0 <= i < |pairs| && Settles(pairs[i], message, user);
    assert pairs[i] in PairSet(pairs);
  }

  lemma FirstsPrepend(pair: (Record, Record), rest: seq<(Record, Record)>)
    requires FirstsDistinct(rest) && forall p <- rest :: p.0 != pair.0
    ensures FirstsDistinct([pair] + rest)
  {
    assert forall i :: 0 <= i < |rest| ==> rest[i] in rest;
  }

  lemma {:induction false} MessagesUsedOnce(ids: Identity, unmatched: seq<Record>, users: seq<Record>)
    requires Distinct(unmatched) && Distinct(users)
    ensures FirstsDistinct(Greedy(ids, unmatched, users))
    decreases |users|
  {
    if users != [] {
      RestMembers(users);
      var k := FirstMatch(ids, unmatched, users[0]);
      if k.None? {
        MessagesUsedOnce(ids, unmatched, users[1..]);
        assert Greedy(ids, unmatched, users) == Greedy(ids, unmatched, users[1..]);
      } else {
        PopMembers(unmatched, k.value);
        var rest := Greedy(ids, Pop(unmatched, k.value), users[1..]);
        MessagesUsedOnce(ids, Pop(unmatched, k.value), users[1..]);
        GreedyIsLegal(ids, Pop(unmatched, k.value), users[1..]);
        assert forall p <- rest :: p in PairSet(rest);
        FirstsPrepend((unmatched[k.value], users[0]), rest);
      }
    }
  }
}
