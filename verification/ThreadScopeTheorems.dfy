/** Binding a conversation to a class, and stripping what was injected. */
module ThreadScopeTheorems {
  import opened Options
  import opened ThreadScope

  // ----- Stripping -------------------------------------------------------------------------------

  lemma Halves(a: string, b: string)
    ensures (a + b)[..|a|] == a && (a + b)[|a|..] == b
  {
  }

  lemma ContextIsRecognised(j: Json, v: Scope, text: string)
    requires PrefixDecodable(j)
    ensures ContextTail(j, Context(j, v) + text) == Some(Strip(text))
  {
    hide Strip, Intro, Suffix, Prefix;
    var printed := j.dump(v);
    assert Context(j, v) + text == Intro + (printed + (Suffix + text));
    Halves(Intro, printed + (Suffix + text));
    Halves(printed, Suffix + text);
    Halves(Suffix, text);
    assert ScansBack(j, v, Suffix + text);
  }

  /** Stripping a stored message gives back the user's own parts, whatever they look like: parts
      that themselves begin with a context are left alone. */
  lemma StripUndoesInject(j: Json, v: Scope, inputs: seq<Part>)
    requires PrefixDecodable(j)
    ensures Public(j, Inject(j, v, inputs)) == inputs
  {
    hide ContextTail, PrefixDecodable;
    ContextIsRecognised(j, v, "");
    assert Context(j, v) + "" == Context(j, v);
    assert Inject(j, v, inputs)[1..] == inputs;
  }

  /** A preview that begins with a whole context shows what follows it, or a neutral title. */
  lemma PreviewHidesContext(j: Json, v: Scope, text: string)
    requires PrefixDecodable(j)
    ensures PublicPreview(j, Context(j, v) + text) == if Strip(text) == "" then NoTitle else Strip(text)
  {
    hide ContextTail, PrefixDecodable, Strip, NoTitle;
    ContextIsRecognised(j, v, text);
    ContextStartsWithPrefix(j, v, text);
  }

  lemma ContextStartsWithPrefix(j: Json, v: Scope, text: string)
    ensures StartsWith(Context(j, v) + text, Prefix)
  {
    hide Suffix;
    assert Context(j, v) + text == Intro + (j.dump(v) + Suffix + text);
  }

  lemma {:induction false} StripLeftFixes(s: string)
    ensures |StripLeft(s)| <= |s| && (s == "" || !IsSpace(s[0]) <==> StripLeft(s) == s)
    ensures StripLeft(s) != s ==> |StripLeft(s)| < |s|
  {
    if s != [] && IsSpace(s[0]) { StripLeftFixes(s[1..]); }
  }

  lemma {:induction false} StripRightFixes(s: string)
    ensures |StripRight(s)| <= |s| && (s == "" || !IsSpace(s[|s| - 1]) <==> StripRight(s) == s)
    ensures StripRight(s) != s ==> |StripRight(s)| < |s|
  {
    if s != [] && IsSpace(s[|s| - 1]) { StripRightFixes(s[..|s| - 1]); }
  }

  lemma StripFixes(s: string)
    ensures |Strip(s)| <= |s| && (Strip(s) == s <==> s == "" || (!IsSpace(s[0]) && !IsSpace(s[|s| - 1])))
  {
    StripLeftFixes(s);
    StripRightFixes(StripLeft(s));
  }

  /** Where the service has merged context and text into one part, the text comes back exactly
      when it neither begins nor ends with white space. */
  lemma MergedTextComesBackIff(j: Json, v: Scope, text: string, rest: string, more: seq<Part>)
    requires PrefixDecodable(j) && text != ""
    ensures Public(j, [Part(Some(Context(j, v) + text), rest)] + more) == [Part(Some(text), rest)] + more
            <==> !IsSpace(text[0]) && !IsSpace(text[|text| - 1])
  {
    hide ContextTail, PrefixDecodable, Strip;
    ContextIsRecognised(j, v, text);
    StripFixes(text);
    var content := [Part(Some(Context(j, v) + text), rest)] + more;
    assert content[1..] == more;
    var back := Public(j, content);
    if Strip(text) == "" { assert |back| == |more|; } else { assert back[0].text == Some(Strip(text)); }
  }

  lemma TailIsShorter(j: Json, value: string)
    ensures ContextTail(j, value).Some? ==> |ContextTail(j, value).value| < |value|
  {
    if ContextTail(j, value).Some? {
      var body := value[|Intro|..];
      var remainder := body[j.scan(body).value..];
      StripFixes(remainder[|Suffix|..]);
    }
  }

  /** A message without injected context is shown as it is exactly when no part of it starts with one. */
  lemma {:induction false} UninjectedIsUntouchedIff(j: Json, content: seq<Part>)
    ensures Public(j, content) == content <==> forall i | 0 <= i < |content| :: TailOf(j, content[i]).None?
  {
    hide ContextTail;
    if content != [] {
      var rest := content[1..];
      UninjectedIsUntouchedIff(j, rest);
      assert content == [content[0]] + rest;
      if TailOf(j, content[0]).None? {
        var back := Public(j, content);
        assert back[1..] == Public(j, rest);
        assert forall i | 0 <= i < |rest| :: rest[i] == content[i + 1];
      } else {
        TailIsShorter(j, content[0].text.value);
        var back := Public(j, content);
        assert |back| < |content| || back[0].text != content[0].text;
      }
    }
  }

  // ----- Bindings --------------------------------------------------------------------------------

  /** Every call and turn carries the class its thread is bound to. */
  ghost predicate Inv(s: State) {
    && (forall i | 0 <= i < |s.calls| && s.calls[i].TurnChecking? :: s.calls[i].key in s.binds && s.binds[s.calls[i].key] == s.calls[i].classId)
    && (forall i | 0 <= i < |s.turns| :: s.turns[i].key in s.binds && s.binds[s.turns[i].key] == s.turns[i].scope.classId)
  }

  lemma BindingIsWriteOnce(binds: map<Key, nat>, key: Key, classId: nat)
    ensures forall k | k in binds :: k in Rebound(binds, key, classId) && Rebound(binds, key, classId)[k] == binds[k]
  {
  }

  lemma StepKeepsBindings(j: Json, s: State, e: Event)
    ensures forall k | k in s.binds :: k in Step(j, s, e).binds && Step(j, s, e).binds[k] == s.binds[k]
  {
    hide Rebound;
    if e.Started? && e.i < |s.calls| && s.calls[e.i].Starting? {
      BindingIsWriteOnce(s.binds, Key(s.calls[e.i].teacher, e.thread), s.calls[e.i].classId);
    } else if e.TriggerBinds? {
      BindingIsWriteOnce(s.binds, e.key, e.classId);
    }
  }

  lemma StepKeepsInv(j: Json, s: State, e: Event)
    requires Inv(s)
    ensures Inv(Step(j, s, e))
  {
    hide Rebound, Inject;
    StepKeepsBindings(j, s, e);
  }

  lemma {:induction false} RunKeepsInv(j: Json, run: seq<State>, events: seq<Event>, i: nat)
    requires IsRun(j, run, events) && i < |run|
    ensures Inv(run[i])
  {
    hide Step;
    if i > 0 {
      RunKeepsInv(j, run, events, i - 1);
      StepKeepsInv(j, run[i - 1], events[i - 1]);
    }
  }

  /** A binding, once made, never changes. */
  lemma {:induction false} BindingsNeverChange(j: Json, run: seq<State>, events: seq<Event>, i: nat, k: nat, key: Key)
    requires IsRun(j, run, events) && i <= k < |run| && key in run[i].binds
    ensures key in run[k].binds && run[k].binds[key] == run[i].binds[key]
  {
    hide Step;
    if i < k {
      BindingsNeverChange(j, run, events, i, k - 1, key);
      StepKeepsBindings(j, run[k - 1], events[k - 1]);
    }
  }

  // ----- From the user's call to the forwarded turn -----------------------------------------------

  /** Among the first `n` events the user called for a turn on this thread, with this class and these inputs. */
  ghost predicate Called(events: seq<Event>, n: nat, key: Key, classId: nat, inputs: seq<Part>) {
    exists m :: 0 <= m < n && m < |events| && events[m] == TurnCalled(key, classId, inputs)
  }

  /** Every call being checked, and every turn forwarded, goes back to such an event. */
  ghost predicate Traced(j: Json, s: State, events: seq<Event>, n: nat) {
    && (forall i | 0 <= i < |s.calls| && s.calls[i].TurnChecking? :: Called(events, n, s.calls[i].key, s.calls[i].classId, s.calls[i].inputs))
    && (forall i | 0 <= i < |s.turns| :: ForwardedFor(j, s.turns[i], events, n))
  }

  ghost predicate ForwardedFor(j: Json, t: Turn, events: seq<Event>, n: nat) {
    exists inputs :: Called(events, n, t.key, t.scope.classId, inputs) && t.input == Inject(j, t.scope, inputs)
  }

  lemma CalledLater(events: seq<Event>, n: nat)
    ensures forall key, classId, inputs :: Called(events, n, key, classId, inputs) ==> Called(events, n + 1, key, classId, inputs)
    ensures n < |events| && events[n].TurnCalled? && events[n].selected > 0 ==>
              Called(events, n + 1, events[n].key, events[n].selected, events[n].inputs)
  {
  }

  lemma ForwardedLater(j: Json, t: Turn, events: seq<Event>, n: nat)
    requires ForwardedFor(j, t, events, n)
    ensures ForwardedFor(j, t, events, n + 1)
  {
    hide Called, Inject;
    CalledLater(events, n);
  }

  lemma StepKeepsTraced(j: Json, s: State, events: seq<Event>, n: nat)
    requires n < |events| && Traced(j, s, events, n)
    ensures Traced(j, Step(j, s, events[n]), events, n + 1)
  {
    hide Called, Inject, Rebound;
    var e, s' := events[n], Step(j, s, events[n]);
    CalledLater(events, n);
    forall i | 0 <= i < |s'.turns| ensures ForwardedFor(j, s'.turns[i], events, n + 1) {
      if i < |s.turns| {
        ForwardedLater(j, s.turns[i], events, n);
      } else {
        var c := s.calls[e.i];
        assert Called(events, n, c.key, c.classId, c.inputs) && s'.turns[i].input == Inject(j, s'.turns[i].scope, c.inputs);
      }
    }
  }

  lemma {:induction false} RunIsTraced(j: Json, run: seq<State>, events: seq<Event>, n: nat)
    requires IsRun(j, run, events) && n < |run|
    ensures Traced(j, run[n], events, n)
  {
    hide Step, Called, ForwardedFor;
    if n > 0 {
      RunIsTraced(j, run, events, n - 1);
      StepKeepsTraced(j, run[n - 1], events, n - 1);
    }
  }

  /** Every turn ever forwarded answers a call the user made on the same thread with the class it
      carries, which is the class the thread is, and stays, bound to although the access check lies
      between; and what it stores strips to exactly the inputs of that call. */
  lemma ForwardedTurnsAreInScope(j: Json, run: seq<State>, events: seq<Event>, i: nat, k: nat)
    requires PrefixDecodable(j) && IsRun(j, run, events) && i < |run| && k < |run[i].turns|
    ensures var t := run[i].turns[k];
            && t.key in run[i].binds && run[i].binds[t.key] == t.scope.classId
            && exists m :: 0 <= m < i && m < |events| && events[m] == TurnCalled(t.key, t.scope.classId, Public(j, t.input))
  {
    hide IsRun, Inject, Public, PrefixDecodable;
    RunKeepsInv(j, run, events, i);
    RunIsTraced(j, run, events, i);
    var t := run[i].turns[k];
    assert ForwardedFor(j, t, events, i);
    var inputs :| Called(events, i, t.key, t.scope.classId, inputs) && t.input == Inject(j, t.scope, inputs);
    StripUndoesInject(j, t.scope, inputs);
  }

  // ----- What stripping and previews take away ------------------------------------------------------

  /** The white space of Python's `str.strip`, by code point. */
  lemma SpacesAre(c: char)
    ensures IsSpace(c) <==>
            var n := c as int;
            9 <= n <= 13 || 28 <= n <= 32 || n == 133 || n == 160 || n == 5760 || 8192 <= n <= 8202
            || n == 8232 || n == 8233 || n == 8239 || n == 8287 || n == 12288
  {
  }

  ghost predicate Blank(s: string) {
    forall i | 0 <= i < |s| :: IsSpace(s[i])
  }

  lemma {:induction false} StripLeftIs(s: string)
    ensures exists a :: Blank(a) && s == a + StripLeft(s)
    ensures StripLeft(s) != "" ==> !IsSpace(StripLeft(s)[0])
  {
    hide IsSpace;
    if s != [] && IsSpace(s[0]) {
      StripLeftIs(s[1..]);
      var a :| Blank(a) && s[1..] == a + StripLeft(s[1..]);
      assert Blank([s[0]] + a) && s == ([s[0]] + a) + StripLeft(s);
    } else {
      assert Blank("") && s == "" + s;
    }
  }

  lemma {:induction false} StripRightIs(s: string)
    ensures exists b :: Blank(b) && s == StripRight(s) + b
    ensures StripRight(s) != "" ==> StripRight(s)[0] == s[0] && !IsSpace(StripRight(s)[|StripRight(s)| - 1])
  {
    hide IsSpace;
    if s != [] && IsSpace(s[|s| - 1]) {
      var front := s[..|s| - 1];
      StripRightIs(front);
      var b :| Blank(b) && front == StripRight(front) + b;
      assert Blank(b + [s[|s| - 1]]) && s == StripRight(s) + (b + [s[|s| - 1]]);
    } else {
      assert Blank("") && s == s + "";
    }
  }

  /** Stripping takes white space off both ends, and all of it. */
  lemma StripIs(s: string)
    ensures exists a, b :: Blank(a) && Blank(b) && s == a + Strip(s) + b
    ensures Strip(s) != "" ==> !IsSpace(Strip(s)[0]) && !IsSpace(Strip(s)[|Strip(s)| - 1])
  {
    hide IsSpace, StripLeft, StripRight, Blank;
    StripLeftIs(s);
    StripRightIs(StripLeft(s));
    var a :| Blank(a) && s == a + StripLeft(s);
    var b :| Blank(b) && StripLeft(s) == StripRight(StripLeft(s)) + b;
    assert s == a + Strip(s) + b;
  }

  /** The text is the introduction, a JSON value n characters long, the closing words, and then `text`. */
  ghost predicate HasContext(j: Json, value: string, n: nat, text: string) {
    && |Intro| <= |value| && j.scan(value[|Intro|..]) == Some(n) && n <= |value| - |Intro|
    && value == Intro + value[|Intro|..|Intro| + n] + Suffix + text
  }

  /** A context is recognised exactly where there is a whole one, and gives what follows it, stripped. */
  lemma ContextIff(j: Json, value: string, tail: string)
    ensures ContextTail(j, value) == Some(tail) <==> exists n: nat, text :: HasContext(j, value, n, text) && tail == Strip(text)
  {
    hide Intro, Suffix, Strip;
    if ContextTail(j, value).Some? {
      var body := value[|Intro|..];
      var n := j.scan(body).value;
      var remainder := body[n..];
      var text := remainder[|Suffix|..];
      assert value == Intro + body && body == body[..n] + remainder && remainder == Suffix + text;
      assert body[..n] == value[|Intro|..|Intro| + n];
      assert HasContext(j, value, n, text);
    }
    forall n: nat, text | HasContext(j, value, n, text) ensures ContextTail(j, value) == Some(Strip(text)) {
      ContextTakesText(j, value, n, text);
    }
  }

  lemma ContextTakesText(j: Json, value: string, n: nat, text: string)
    requires HasContext(j, value, n, text)
    ensures ContextTail(j, value) == Some(Strip(text))
  {
    hide Intro, Suffix, Strip;
    var middle := value[|Intro|..|Intro| + n];
    assert value == Intro + (middle + (Suffix + text));
    Halves(Intro, middle + (Suffix + text));
    Halves(middle, Suffix + text);
    Halves(Suffix, text);
  }

  /** A preview that does not begin with the marker is shown as it is; one that begins with it but holds no whole
      context, or nothing after it, gets the neutral title. */
  lemma PreviewIs(j: Json, value: string)
    ensures !(Prefix <= value) ==> PublicPreview(j, value) == value
    ensures Prefix <= value ==>
              var shown := PublicPreview(j, value);
              if exists n: nat, text :: HasContext(j, value, n, text) && Strip(text) != ""
              then exists n: nat, text :: HasContext(j, value, n, text) && shown == Strip(text)
              else shown == NoTitle
  {
    hide Intro, Suffix, Strip, ContextTail, HasContext, Prefix, NoTitle;
    var tail := ContextTail(j, value);
    if tail.Some? { ContextIff(j, value, tail.value); }
    forall n: nat, text | HasContext(j, value, n, text) ensures tail == Some(Strip(text)) { ContextIff(j, value, Strip(text)); }
  }

  // ----- Calls that go through --------------------------------------------------------------------

  /** A turn is taken up exactly on a bound thread with the class it is bound to; anything else changes nothing. */
  lemma TurnIsTakenUpIff(j: Json, s: State, key: Key, selected: int, inputs: seq<Part>)
    ensures var s' := Step(j, s, TurnCalled(key, selected, inputs));
            && (s' == s <==> !(key.thread != "" && selected > 0 && key in s.binds && s.binds[key] == selected))
            && (s' != s ==> selected > 0 && s' == s.(calls := s.calls + [TurnChecking(key, selected, inputs)]))
  {
    var s' := Step(j, s, TurnCalled(key, selected, inputs));
    assert s' != s ==> |s'.calls| > |s.calls|;
    if key.thread != "" && selected > 0 && key in s.binds && s.binds[key] == selected { assert |s'.calls| > |s.calls|; }
  }

  /** Such a turn, once access is confirmed, is forwarded with the class and the confirmed name, and what it stores
      strips to the user's own inputs. */
  lemma AuthorisedTurnIsForwarded(j: Json, s: State, key: Key, inputs: seq<Part>, name: string)
    requires PrefixDecodable(j) && key.thread != "" && key in s.binds && s.binds[key] > 0
    ensures var s' := Step(j, Step(j, s, TurnCalled(key, s.binds[key], inputs)), Authorised(|s.calls|, name));
            && s'.binds == s.binds && |s'.turns| == |s.turns| + 1 && s'.turns[..|s.turns|] == s.turns
            && s'.turns[|s.turns|].key == key && s'.turns[|s.turns|].scope == Scope(s.binds[key], name)
            && Public(j, s'.turns[|s.turns|].input) == inputs
  {
    hide PrefixDecodable, Inject, Public;
    StripUndoesInject(j, Scope(s.binds[key], name), inputs);
  }

  /** A refused call forwards nothing, now or later: its slot stays finished. */
  lemma RefusedIsOver(j: Json, s: State, i: nat, e: Event)
    requires i < |s.calls|
    ensures var s' := Step(j, s, Refused(i));
            && s'.turns == s.turns && s'.binds == s.binds && s'.calls == s.calls[i := Finished]
            && Step(j, s', e).calls[i] == Finished
            && (e.Authorised? && e.i == i ==> Step(j, s', e).turns == s.turns)
  {
    hide Inject, Rebound;
  }

  /** A conversation started for a class is bound to it, unless its thread has a binding already, which stays. */
  lemma StartedThreadIsBound(j: Json, s: State, teacher: nat, classId: nat, name: string, thread: string)
    requires classId > 0 && thread != ""
    ensures var n := |s.calls|;
            var s' := Step(j, Step(j, Step(j, s, StartCalled(teacher, classId)), Authorised(n, name)), Started(n, thread));
            var key := Key(teacher, thread);
            s'.binds == if key in s.binds then s.binds else s.binds[key := classId]
  {
  }

  /** A trigger binds its thread, unless it has a binding already, which stays. */
  lemma TriggeredThreadIsBound(j: Json, s: State, key: Key, classId: nat)
    ensures Step(j, s, TriggerBinds(key, classId)).binds == if key in s.binds then s.binds else s.binds[key := classId]
  {
  }

  /** A conversation without a class is not started. */
  lemma ClasslessStartIsIgnored(j: Json, s: State, teacher: nat, selected: int)
    ensures Step(j, s, StartCalled(teacher, selected)) == s <==> selected <= 0
  {
    var s' := Step(j, s, StartCalled(teacher, selected));
    assert selected > 0 ==> |s'.calls| > |s.calls|;
  }
}
