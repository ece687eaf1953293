/** Placeholder expansion in blob paths (src/request/RequestBinder.ts:39-49): every `{name}` in a
    path is replaced by the string that `name` has in the request body or, failing that, in the
    query string. The global regular expression `/\{(?<prop>.+?)\}/g` is modelled by `Exec`, the
    search it performs from its `lastIndex`. */
module Placeholders {
  import opened Results
  import opened Json

  /** A match of the placeholder pattern: `s[start..end]` is `{`, a name, `}`. */
  datatype Match = Match(start: nat, end: nat)

  /** The characters `.` does not match. */
  predicate IsLineTerminator(c: char) {
    c == '\n' || c == '\r' || c == '\U{2028}' || c == '\U{2029}'
  }

  /** The closing brace the lazy `.+?` stops at: the first `}` at or after `j`, provided no
      line terminator comes before it. */
  function Close(s: string, j: nat): (r: Option<nat>)
    ensures r.Some? ==> j <= r.value < |s| && s[r.value] == '}'
    ensures r.Some? ==> forall k :: j <= k < r.value ==> s[k] != '}' && !IsLineTerminator(s[k])
    decreases |s| - j
  {
    if j >= |s| then None
    else if s[j] == '}' then Some(j)
    else if IsLineTerminator(s[j]) then None
    else Close(s, j + 1)
  }

  /** The match that starts at index `i`, if one does: `{`, at least one character that is
      not a line terminator, and everything up to the first `}` after it. */
  function MatchAt(s: string, i: nat): (r: Option<Match>)
    ensures r.Some? ==> r.value.start == i && i + 3 <= r.value.end <= |s|
    ensures r.Some? ==> s[i] == '{' && s[r.value.end - 1] == '}' && !IsLineTerminator(s[i + 1])
    ensures r.Some? ==> forall k :: i + 2 <= k < r.value.end - 1 ==> s[k] != '}' && !IsLineTerminator(s[k])
  {
    if i + 1 < |s| && s[i] == '{' && !IsLineTerminator(s[i + 1]) then
      match Close(s, i + 2)
      case None => None
      case Some(j) => Some(Match(i, j + 1))
    else None
  }

  /** The leftmost match that starts at or after `from`. */
  function FirstFrom(s: string, from: nat): (r: Option<Match>)
    ensures r.Some? ==> from <= r.value.start && MatchAt(s, r.value.start) == r
    decreases |s| - from
  {
    if from >= |s| then None
    else if MatchAt(s, from).Some? then MatchAt(s, from)
    else FirstFrom(s, from + 1)
  }

  /** The match found is the leftmost: no match starts between `from` and it, and when none is
      found, no match starts anywhere from `from` on. */
  lemma {:induction false} FirstFromIsLeftmost(s: string, from: nat)
    ensures var r := FirstFrom(s, from);
      && (r.Some? ==> forall k :: from <= k < r.value.start ==> MatchAt(s, k).None?)
      && (r.None? ==> forall k :: from <= k < |s| ==> MatchAt(s, k).None?)
    decreases |s| - from
  {
    if from < |s| && MatchAt(s, from).None? {
      FirstFromIsLeftmost(s, from + 1);
    }
  }

  /** `regex.exec(s)` with the given `lastIndex`: no match when `lastIndex` is past the end. */
  function Exec(s: string, lastIndex: nat): Option<Match> {
    if lastIndex > |s| then None else FirstFrom(s, lastIndex)
  }

  /** The `prop` group of a match: the placeholder's name. */
  function Name(s: string, m: Match): string
    requires m.start + 2 <= m.end <= |s|
  {
    s[m.start + 1 .. m.end - 1]
  }

  /** `(request.body || {})[prop] || (request.query || {})[prop]`, kept only when it is a
      non-empty string. */
  function Lookup(body: Value, query: Value, name: string): (r: Option<string>)
    ensures r.Some? ==> r.value != ""
  {
    var fromBody := Prop(body, name);
    var v := if Truthy(fromBody) then fromBody else Prop(query, name);
    if Truthy(v) && v.Str? then Some(v.s) else None
  }

  /** A truthy body value decides alone, so a truthy non-string in the body hides the query;
      otherwise the query decides. Either source can supply a name. */
  lemma BodyTakesPrecedence(body: Value, query: Value, name: string)
    ensures Truthy(Prop(body, name)) ==>
      Lookup(body, query, name) == (if Prop(body, name).Str? then Some(Prop(body, name).s) else None)
    ensures !Truthy(Prop(body, name)) ==>
      Lookup(body, query, name) == (if Prop(query, name).Str? && Prop(query, name).s != "" then Some(Prop(query, name).s) else None)
  {
  }

  // ---------------------------------------------------------------------------------------
  // The search from an index only sees the suffix from there on

  function ShiftIndex(r: Option<nat>, d: nat): Option<nat> {
    match r
    case None => None
    case Some(j) => Some(j + d)
  }

  function Shift(r: Option<Match>, d: nat): Option<Match> {
    match r
    case None => None
    case Some(m) => Some(Match(m.start + d, m.end + d))
  }

  lemma {:induction false} CloseSuffix(s: string, i: nat, j: nat)
    requires i <= j <= |s|
    ensures Close(s, j) == ShiftIndex(Close(s[i..], j - i), i)
    decreases |s| - j
  {
    if j < |s| {
      assert s[i..][j - i] == s[j];
      CloseSuffix(s, i, j + 1);
    }
  }

  lemma MatchAtSuffix(s: string, i: nat, j: nat)
    requires i <= j <= |s|
    ensures MatchAt(s, j) == Shift(MatchAt(s[i..], j - i), i)
  {
    if j + 1 < |s| {
      assert s[i..][j - i] == s[j] && s[i..][j - i + 1] == s[j + 1];
      CloseSuffix(s, i, j + 2);
    }
  }

  lemma {:induction false} FirstFromSuffix(s: string, i: nat, j: nat)
    requires i <= j <= |s|
    ensures FirstFrom(s, j) == Shift(FirstFrom(s[i..], j - i), i)
    decreases |s| - j
  {
    var t := s[i..];
    if j == |s| {
      assert FirstFrom(t, j - i) == None;
    } else if MatchAt(s, j).Some? {
      MatchAtSuffix(s, i, j);
      assert FirstFrom(t, j - i) == MatchAt(t, j - i);
    } else {
      MatchAtSuffix(s, i, j);
      FirstFromSuffix(s, i, j + 1);
      assert FirstFrom(t, j - i) == FirstFrom(t, j - i + 1);
    }
  }

  /** `Exec` from `lastIndex` is the first placeholder of the suffix from `lastIndex`, moved
      there: the pattern never looks behind its start. */
  lemma ExecIsFirstOfSuffix(s: string, lastIndex: nat)
    requires lastIndex <= |s|
    ensures Exec(s, lastIndex) == Shift(FirstFrom(s[lastIndex..], 0), lastIndex)
  {
    FirstFromSuffix(s, lastIndex, lastIndex);
  }

  // ---------------------------------------------------------------------------------------
  // The intended expansion

  /** What a placeholder becomes: the value its name looks up, or the placeholder itself. */
  function Replacement(s: string, m: Match, body: Value, query: Value): string
    requires m.start + 2 <= m.end <= |s|
  {
    match Lookup(body, query, Name(s, m))
    case None => s[m.start..m.end]
    case Some(v) => v
  }

  /** Every placeholder of `s`, left to right, replaced by the value its name looks up, or
      kept as it is when the lookup finds no string; replaced text is not searched again. */
  function Substitute(s: string, body: Value, query: Value): string
    decreases |s|
  {
    match FirstFrom(s, 0)
    case None => s
    case Some(m) => s[..m.start] + Replacement(s, m, body, query) + Substitute(s[m.end..], body, query)
  }

  /** No placeholder of `s` has a name that resolves. */
  predicate Unresolved(s: string, body: Value, query: Value) {
    forall i :: 0 <= i < |s| && MatchAt(s, i).Some? ==> Lookup(body, query, Name(s, MatchAt(s, i).value)).None?
  }

  lemma UnresolvedSuffix(s: string, k: nat, body: Value, query: Value)
    requires k <= |s| && Unresolved(s, body, query)
    ensures Unresolved(s[k..], body, query)
  {
    var rest := s[k..];
    forall i | 0 <= i < |rest| && MatchAt(rest, i).Some?
      ensures Lookup(body, query, Name(rest, MatchAt(rest, i).value)).None?
    {
      MatchAtSuffix(s, k, k + i);
      assert Name(rest, MatchAt(rest, i).value) == Name(s, MatchAt(s, k + i).value);
    }
  }

  /** A path none of whose placeholders resolves comes back unchanged. */
  lemma {:induction false} SubstituteUnresolved(s: string, body: Value, query: Value)
    requires Unresolved(s, body, query)
    ensures Substitute(s, body, query) == s
    decreases |s|
  {
    if FirstFrom(s, 0).Some? {
      var m := FirstFrom(s, 0).value;
      SubstituteFirst(s, m, body, query);
      KeptPlaceholder(s, m, body, query);
      UnresolvedSuffix(s, m.end, body, query);
      SubstituteUnresolved(s[m.end..], body, query);
      Reassemble(s, m.start, m.end);
    }
  }

  lemma Reassemble(s: string, a: nat, b: nat)
    requires a <= b <= |s|
    ensures s[..a] + s[a..b] + s[b..] == s
  {
    assert s[..a] + s[a..b] == s[..b];
  }

  /** A placeholder whose name does not resolve is kept as it stands. */
  lemma KeptPlaceholder(s: string, m: Match, body: Value, query: Value)
    requires MatchAt(s, m.start) == Some(m) && Unresolved(s, body, query)
    ensures m.start + 2 <= m.end <= |s|
    ensures Replacement(s, m, body, query) == s[m.start..m.end]
  {
    assert m.start < |s| && MatchAt(s, m.start).Some?;
  }

  /** Expanding the suffix from `lastIndex` reaches the match `Exec` finds there first. */
  lemma SubstituteAtMatch(r: string, lastIndex: nat, body: Value, query: Value)
    requires lastIndex <= |r| && Exec(r, lastIndex).Some?
    ensures var m := Exec(r, lastIndex).value;
      && lastIndex <= m.start && m.end <= |r|
      && Substitute(r[lastIndex..], body, query)
         == r[lastIndex..m.start] + Replacement(r, m, body, query) + Substitute(r[m.end..], body, query)
  {
    ExecIsFirstOfSuffix(r, lastIndex);
    var s := r[lastIndex..];
    var m := Exec(r, lastIndex).value;
    var m' := Match(m.start - lastIndex, m.end - lastIndex);
    SubstituteFirst(s, m', body, query);
    SuffixMatch(r, lastIndex, m);
    ReplacementAgrees(s, m', r, m, body, query);
  }

  lemma ReplacementAgrees(s: string, m: Match, s': string, m': Match, body: Value, query: Value)
    requires m.start + 2 <= m.end <= |s| && m'.start + 2 <= m'.end <= |s'|
    requires Name(s, m) == Name(s', m') && s[m.start..m.end] == s'[m'.start..m'.end]
    ensures Replacement(s, m, body, query) == Replacement(s', m', body, query)
  {
  }

  /** The expansion of a path whose first placeholder is `m`. */
  lemma SubstituteFirst(s: string, m: Match, body: Value, query: Value)
    requires FirstFrom(s, 0) == Some(m)
    ensures m.start + 2 <= m.end <= |s|
    ensures Substitute(s, body, query) == s[..m.start] + Replacement(s, m, body, query) + Substitute(s[m.end..], body, query)
  {
  }

  /** The pieces of the suffix from `k` around a placeholder `m` are the same pieces of the
      whole path. */
  lemma SuffixMatch(r: string, k: nat, m: Match)
    requires k <= m.start && m.start + 2 <= m.end <= |r|
    ensures var s := r[k..];
      var m' := Match(m.start - k, m.end - k);
      && s[..m'.start] == r[k..m.start]
      && Name(s, m') == Name(r, m)
      && s[m'.start..m'.end] == r[m.start..m.end]
      && s[m'.end..] == r[m.end..]
  {
    var s := r[k..];
    var m' := Match(m.start - k, m.end - k);
    SliceOfSuffix(r, k, 0, m'.start);
    SliceOfSuffix(r, k, m'.start + 1, m'.end - 1);
    SliceOfSuffix(r, k, m'.start, m'.end);
    SliceOfSuffix(r, k, m'.end, |s|);
  }

  lemma SliceOfSuffix(r: string, k: nat, a: nat, b: nat)
    requires k <= |r| && a <= b <= |r| - k
    ensures r[k..][a..b] == r[k + a..k + b]
  {
  }

  /** When no placeholder is left after `lastIndex`, the expansion of the rest is the rest. */
  lemma StopStep(r: string, lastIndex: nat, body: Value, query: Value)
    requires lastIndex <= |r| && Exec(r, lastIndex).None?
    ensures r[..lastIndex] + Substitute(r[lastIndex..], body, query) == r
  {
    ExecIsFirstOfSuffix(r, lastIndex);
    assert r[..lastIndex] + r[lastIndex..] == r;
  }

  /** Moving past a placeholder that stays keeps the expansion of the whole path. */
  lemma KeepStep(r: string, lastIndex: nat, body: Value, query: Value)
    requires lastIndex <= |r| && Exec(r, lastIndex).Some?
    requires Lookup(body, query, Name(r, Exec(r, lastIndex).value)).None?
    ensures var m := Exec(r, lastIndex).value;
      r[..m.end] + Substitute(r[m.end..], body, query) == r[..lastIndex] + Substitute(r[lastIndex..], body, query)
  {
    SubstituteAtMatch(r, lastIndex, body, query);
    var m := Exec(r, lastIndex).value;
    assert Replacement(r, m, body, query) == r[m.start..m.end];
    Regroup(r, lastIndex, m.start, m.end, Substitute(r[m.end..], body, query));
  }

  /** Replacing a placeholder in place and moving past the inserted value keeps the expansion
      of the whole path. */
  lemma ReplaceStep(r: string, lastIndex: nat, body: Value, query: Value)
    requires lastIndex <= |r| && Exec(r, lastIndex).Some?
    requires Lookup(body, query, Name(r, Exec(r, lastIndex).value)).Some?
    ensures var m := Exec(r, lastIndex).value;
      var v := Lookup(body, query, Name(r, m)).value;
      var e := r[..m.start] + v + r[m.end..];
      e[..m.start + |v|] + Substitute(e[m.start + |v|..], body, query) == r[..lastIndex] + Substitute(r[lastIndex..], body, query)
  {
    SubstituteAtMatch(r, lastIndex, body, query);
    var m := Exec(r, lastIndex).value;
    var v := Lookup(body, query, Name(r, m)).value;
    assert Replacement(r, m, body, query) == v;
    Splice(r, lastIndex, m.start, m.end, v, Substitute(r[m.end..], body, query));
    var e := r[..m.start] + v + r[m.end..];
    assert e[m.start + |v|..] == r[m.end..];
  }

  lemma Regroup(r: string, i: nat, j: nat, k: nat, t: string)
    requires i <= j <= k <= |r|
    ensures r[..k] + t == r[..i] + (r[i..j] + r[j..k] + t)
  {
    assert r[..k] == r[..i] + r[i..j] + r[j..k];
  }

  lemma Splice(r: string, i: nat, j: nat, k: nat, v: string, t: string)
    requires i <= j <= k <= |r|
    ensures (r[..j] + v + r[k..])[..j + |v|] + t == r[..i] + (r[i..j] + v + t)
  {
    assert (r[..j] + v + r[k..])[..j + |v|] == r[..j] + v;
    assert r[..j] == r[..i] + r[i..j];
  }

  /** The corrected loop: after a replacement the search resumes right after the inserted
      value, so each placeholder of the path is visited once, the next one is never skipped
      and a value that contains a placeholder is not expanded again. */
  method Expand(path: string, body: Value, query: Value) returns (r: string)
    ensures r == Substitute(path, body, query)
  {
    r := path;
    var last: nat := 0;
    while true
      invariant last <= |r|
      invariant r[..last] + Substitute(r[last..], body, query) == Substitute(path, body, query)
      decreases |r| - last
    {
      var m := Exec(r, last);
      if m.None? {
        StopStep(r, last, body, query);
        break;
      }
      var name := Lookup(body, query, Name(r, m.value));
      if name.None? {
        KeepStep(r, last, body, query);
        last := m.value.end;
      } else {
        ReplaceStep(r, last, body, query);
        r, last := r[..m.value.start] + name.value + r[m.value.end..], m.value.start + |name.value|;
      }
    }
  }

  // ---------------------------------------------------------------------------------------
  // The loop as written

  /** `pat` occurs in `s` at index `j`. */
  predicate OccursAt(s: string, pat: string, j: nat) {
    j + |pat| <= |s| && s[j..j + |pat|] == pat
  }

  /** The first index at which `pat` occurs in `s`, from `from` on. */
  function IndexOf(s: string, pat: string, from: nat): (r: Option<nat>)
    ensures r.Some? ==> from <= r.value && OccursAt(s, pat, r.value)
    decreases |s| - from
  {
    if from + |pat| > |s| then None
    else if s[from..from + |pat|] == pat then Some(from)
    else IndexOf(s, pat, from + 1)
  }

  /** The index found is the leftmost: `pat` occurs nowhere between `from` and it, and when
      none is found, nowhere from `from` on. */
  lemma {:induction false} IndexOfIsLeftmost(s: string, pat: string, from: nat)
    ensures var r := IndexOf(s, pat, from);
      && (r.Some? ==> forall j :: from <= j < r.value ==> !OccursAt(s, pat, j))
      && (r.None? ==> forall j :: from <= j ==> !OccursAt(s, pat, j))
    decreases |s| - from
  {
    if from + |pat| <= |s| && s[from..from + |pat|] != pat {
      IndexOfIsLeftmost(s, pat, from + 1);
    }
  }

  /** `s.replace(pat, rep)` with a string pattern: the first occurrence only. */
  function ReplaceFirst(s: string, pat: string, rep: string): string {
    match IndexOf(s, pat, 0)
    case None => s
    case Some(k) => s[..k] + rep + s[k + |pat|..]
  }

  /** The `while (match = regex.exec(path))` loop as the source writes it, run for at most
      `fuel` iterations (`None` when they do not suffice). After a replacement `lastIndex` still
      holds the end of the match in the path before the replacement. */
  function ExpandAsWritten(path: string, lastIndex: nat, body: Value, query: Value, fuel: nat): Option<string>
    decreases fuel
  {
    match Exec(path, lastIndex)
    case None => Some(path)
    case Some(m) =>
      if fuel == 0 then None
      else
        match Lookup(body, query, Name(path, m))
        case None => ExpandAsWritten(path, m.end, body, query, fuel - 1)
        case Some(v) => ExpandAsWritten(ReplaceFirst(path, path[m.start..m.end], v), m.end, body, query, fuel - 1)
  }

  /** The request body of the first counterexample. */
  const ShortValues: Value := Obj(map["appId" := Str("a"), "id" := Str("7")])

  /** A value shorter than its placeholder leaves `lastIndex` past the next placeholder, which
      is then never expanded; the corrected expansion reaches it. */
  lemma ShortValueSkipsPlaceholder()
    ensures ExpandAsWritten("{appId}/{id}", 0, ShortValues, Undefined, 2) == Some("a/{id}")
    ensures Substitute("{appId}/{id}", ShortValues, Undefined) == "a/7"
  {
    FirstOfShortPath();
    ShortPathAsWritten();
    ShortPathSubstituted();
  }

  lemma FirstOfShortPath()
    ensures FirstFrom("{appId}/{id}", 0) == Some(Match(0, 7))
    ensures Name("{appId}/{id}", Match(0, 7)) == "appId"
    ensures Lookup(ShortValues, Undefined, "appId") == Some("a")
  {
    assert Close("{appId}/{id}", 2) == Some(6);
  }

  lemma ShortPathAsWritten()
    requires FirstFrom("{appId}/{id}", 0) == Some(Match(0, 7))
    requires Name("{appId}/{id}", Match(0, 7)) == "appId"
    requires Lookup(ShortValues, Undefined, "appId") == Some("a")
    ensures ExpandAsWritten("{appId}/{id}", 0, ShortValues, Undefined, 2) == Some("a/{id}")
  {
    var s := "{appId}/{id}";
    assert IndexOf(s, s[0..7], 0) == Some(0);
    assert ReplaceFirst(s, s[0..7], "a") == "a/{id}";
    assert Exec("a/{id}", 7) == None;
  }

  lemma ShortPathSubstituted()
    requires FirstFrom("{appId}/{id}", 0) == Some(Match(0, 7))
    requires Name("{appId}/{id}", Match(0, 7)) == "appId"
    requires Lookup(ShortValues, Undefined, "appId") == Some("a")
    ensures Substitute("{appId}/{id}", ShortValues, Undefined) == "a/7"
  {
    var s := "{appId}/{id}";
    var rest := s[7..];
    assert rest == "/{id}";
    assert Close(rest, 3) == Some(4);
    assert FirstFrom(rest, 0) == Some(Match(1, 5));
    assert Name(rest, Match(1, 5)) == "id";
    assert Lookup(ShortValues, Undefined, "id") == Some("7");
    assert Substitute(rest[5..], ShortValues, Undefined) == [];
  }

  /** The request body of the second counterexample: `a` names a value holding itself twice. */
  const SelfBody: Value := Obj(map["a" := Str("{a}{a}")])

  /** `{a}` written `k` times. */
  function Rep(k: nat): (s: string)
    ensures |s| == 3 * k
  {
    if k == 0 then "" else "{a}" + Rep(k - 1)
  }

  lemma {:induction false} RepSnoc(k: nat)
    ensures Rep(k + 1) == Rep(k) + "{a}"
  {
    if k > 0 {
      RepSnoc(k - 1);
    }
  }

  lemma RepTail(n: nat)
    requires n >= 1
    ensures var s := Rep(n);
      && s[|s| - 3..] == "{a}"
      && s[|s| - 3] == '{' && s[|s| - 2] == 'a' && s[|s| - 1] == '}'
  {
    RepSnoc(n - 1);
    assert Rep(n) == Rep(n - 1) + "{a}";
  }

  /** A path that ends in `{a}`, searched from there, yields that placeholder. */
  lemma TailPlaceholder(s: string)
    requires |s| >= 3 && s[|s| - 3] == '{' && s[|s| - 2] == 'a' && s[|s| - 1] == '}'
    ensures Exec(s, |s| - 3) == Some(Match(|s| - 3, |s|))
    ensures Name(s, Match(|s| - 3, |s|)) == "a"
  {
    var i := |s| - 3;
    assert Close(s, i + 2) == Some(i + 2);
    assert MatchAt(s, i) == Some(Match(i, i + 3));
    assert s[i + 1..i + 2] == "a";
  }

  /** The search from the last placeholder of `Rep(n)` finds it, named `a`. */
  lemma RepExec(n: nat)
    requires n >= 1
    ensures Exec(Rep(n), |Rep(n)| - 3) == Some(Match(|Rep(n)| - 3, |Rep(n)|))
    ensures Rep(n)[|Rep(n)| - 3..|Rep(n)|] == "{a}"
    ensures Name(Rep(n), Match(|Rep(n)| - 3, |Rep(n)|)) == "a"
  {
    RepTail(n);
    TailPlaceholder(Rep(n));
  }

  /** Replacing the first `{a}` of `Rep(n)` by `{a}{a}` gives `Rep(n + 1)`. */
  lemma RepReplace(n: nat)
    requires n >= 1
    ensures ReplaceFirst(Rep(n), "{a}", "{a}{a}") == Rep(n + 1)
  {
    var s := Rep(n);
    assert s[0..3] == "{a}";
    assert IndexOf(s, "{a}", 0) == Some(0);
    assert s[3..] == Rep(n - 1);
  }

  /** One turn of the loop as written on `Rep(n)` with `lastIndex` at its last placeholder:
      the path becomes `Rep(n + 1)`, with `lastIndex` at its last placeholder again. */
  lemma RepStep(n: nat, fuel: nat)
    requires n >= 1 && fuel > 0
    ensures ExpandAsWritten(Rep(n), |Rep(n)| - 3, SelfBody, Undefined, fuel)
         == ExpandAsWritten(Rep(n + 1), |Rep(n + 1)| - 3, SelfBody, Undefined, fuel - 1)
  {
    var s := Rep(n);
    RepExec(n);
    RepReplace(n);
    assert Lookup(SelfBody, Undefined, "a") == Some("{a}{a}");
    ReplacingTurn(s, |s| - 3, SelfBody, Undefined, fuel, Match(|s| - 3, |s|), "{a}{a}");
  }

  /** One turn of the loop as written that finds `m` and replaces it by `v`. */
  lemma ReplacingTurn(path: string, lastIndex: nat, body: Value, query: Value, fuel: nat, m: Match, v: string)
    requires fuel > 0 && Exec(path, lastIndex) == Some(m)
    requires m.start + 2 <= m.end <= |path| && Lookup(body, query, Name(path, m)) == Some(v)
    ensures ExpandAsWritten(path, lastIndex, body, query, fuel)
         == ExpandAsWritten(ReplaceFirst(path, path[m.start..m.end], v), m.end, body, query, fuel - 1)
  {
  }

  /** The loop as written, started on `Rep(n)` with `lastIndex` at its last placeholder, has
      not ended within `fuel` turns. */
  predicate NotEnded(n: nat, fuel: nat)
    requires n >= 1
  {
    ExpandAsWritten(Rep(n), |Rep(n)| - 3, SelfBody, Undefined, fuel) == None
  }

  lemma RepStepNotEnded(n: nat, fuel: nat)
    requires n >= 1 && fuel > 0 && NotEnded(n + 1, fuel - 1)
    ensures NotEnded(n, fuel)
  {
    RepStep(n, fuel);
  }

  lemma RepNotEnded(n: nat)
    requires n >= 1
    ensures NotEnded(n, 0)
  {
    RepExec(n);
  }

  lemma {:induction false} RepNeverEnds(n: nat, fuel: nat)
    requires n >= 1
    ensures NotEnded(n, fuel)
    decreases fuel
  {
    if fuel > 0 {
      RepNeverEnds(n + 1, fuel - 1);
      RepStepNotEnded(n, fuel);
    } else {
      RepNotEnded(n);
    }
  }

  /** A value that contains its own placeholder is expanded again and again: whatever the
      number of iterations allowed, the loop has not ended. The corrected expansion inserts
      the value once. */
  lemma SelfReferenceNeverEnds(fuel: nat)
    ensures ExpandAsWritten("{a}", 0, SelfBody, Undefined, fuel) == None
    ensures Substitute("{a}", SelfBody, Undefined) == "{a}{a}"
  {
    assert Rep(1) == "{a}";
    RepNeverEnds(1, fuel);
    assert Close("{a}", 2) == Some(2);
    assert FirstFrom("{a}", 0) == Some(Match(0, 3));
    assert Name("{a}", Match(0, 3)) == "a";
    assert Lookup(SelfBody, Undefined, "a") == Some("{a}{a}");
    assert Substitute("{a}"[3..], SelfBody, Undefined) == [];
  }

  /** The closing brace found from `j` is the first `}` there when only ordinary characters
      come before it. */
  lemma {:induction false} ClosesAt(s: string, j: nat, k: nat)
    requires j <= k < |s| && s[k] == '}'
    requires forall i :: j <= i < k ==> s[i] != '}' && !IsLineTerminator(s[i])
    ensures Close(s, j) == Some(k)
    decreases k - j
  {
    if j < k {
      ClosesAt(s, j + 1, k);
    }
  }

  /** Positions without `{` start no match, so the search passes over them. */
  lemma {:induction false} SkipsNoBrace(s: string, from: nat, upto: nat)
    requires from <= upto <= |s|
    requires forall i :: from <= i < upto ==> s[i] != '{'
    ensures FirstFrom(s, from) == FirstFrom(s, upto)
    decreases upto - from
  {
    if from < upto {
      SkipsNoBrace(s, from + 1, upto);
    }
  }

  /** A placeholder `{name}` at `start` whose name holds neither `}` nor a line terminator,
      with no `{` between `from` and `start`, is the next match from `from`. */
  lemma NextPlaceholder(s: string, from: nat, start: nat, end: nat)
    requires from <= start && start + 3 <= end <= |s|
    requires s[start] == '{' && s[end - 1] == '}'
    requires forall i :: start + 1 <= i < end - 1 ==> s[i] != '}' && !IsLineTerminator(s[i])
    requires forall i :: from <= i < start ==> s[i] != '{'
    ensures FirstFrom(s, from) == Some(Match(start, end))
  {
    ClosesAt(s, start + 2, end - 1);
    SkipsNoBrace(s, from, start);
  }

  /** In brace-free text followed by `{name}`, that placeholder is the first match. */
  lemma LeadingMatch(pre: string, name: string, post: string)
    requires '{' !in pre && name != ""
    requires forall c :: c in name ==> c != '}' && !IsLineTerminator(c)
    ensures var s := pre + "{" + name + "}" + post;
      var m := Match(|pre|, |pre| + |name| + 2);
      && FirstFrom(s, 0) == Some(m)
      && Name(s, m) == name
      && s[..m.start] == pre && s[m.start..m.end] == "{" + name + "}" && s[m.end..] == post
      && forall i :: 0 <= i < m.start ==> s[i] != '{'
  {
    var s := pre + "{" + name + "}" + post;
    var start, end := |pre|, |pre| + |name| + 2;
    assert s[start] == '{' && s[end - 1] == '}';
    forall i | start + 1 <= i < end - 1
      ensures s[i] != '}' && !IsLineTerminator(s[i])
    {
      assert s[i] == name[i - start - 1];
      assert name[i - start - 1] in name;
    }
    forall i | 0 <= i < start
      ensures s[i] != '{'
    {
      assert s[i] == pre[i];
      assert pre[i] in pre;
    }
    NextPlaceholder(s, 0, start, end);
    assert s[..start] == pre;
    assert s[start..end] == "{" + name + "}";
    assert s[end..] == post;
  }

  /** Expanding a path that starts with brace-free text and a placeholder: the text, what the
      placeholder becomes, and the expansion of the rest. */
  lemma SubstituteLeading(pre: string, name: string, post: string, body: Value, query: Value)
    requires '{' !in pre && name != ""
    requires forall c :: c in name ==> c != '}' && !IsLineTerminator(c)
    ensures Substitute(pre + "{" + name + "}" + post, body, query)
         == pre + (match Lookup(body, query, name) case None => "{" + name + "}" case Some(v) => v)
                + Substitute(post, body, query)
  {
    var s := pre + "{" + name + "}" + post;
    var m := Match(|pre|, |pre| + |name| + 2);
    LeadingMatch(pre, name, post);
    SubstituteFirst(s, m, body, query);
  }

  /** Text without `{` expands to itself. */
  lemma SubstituteBraceFree(s: string, body: Value, query: Value)
    requires '{' !in s
    ensures Substitute(s, body, query) == s
  {
    SkipsNoBrace(s, 0, |s|);
  }

  // ---------------------------------------------------------------------------------------
  // Where the loop as written agrees with the corrected expansion

  /** The `{` at `i` opens a placeholder whose name resolves to a value holding no `{` and at
      least as long as the placeholder. */
  predicate SafeAt(s: string, i: nat, body: Value, query: Value) {
    && MatchAt(s, i).Some?
    && var m := MatchAt(s, i).value;
       var v := Lookup(body, query, Name(s, m));
       v.Some? && '{' !in v.value && |v.value| >= m.end - m.start
  }

  /** Every `{` of `s` opens such a placeholder. */
  predicate ExpandsSafely(s: string, body: Value, query: Value) {
    forall i {:trigger SafeAt(s, i, body, query)} :: 0 <= i < |s| && s[i] == '{' ==> SafeAt(s, i, body, query)
  }

  /** The number of `{` in `s`: a bound on the turns the loop takes. */
  function Opens(s: string): nat {
    if s == [] then 0 else (if s[0] == '{' then 1 else 0) + Opens(s[1..])
  }

  lemma {:induction false} OpensAppend(a: string, b: string)
    ensures Opens(a + b) == Opens(a) + Opens(b)
  {
    if a == [] {
      assert a + b == b;
    } else {
      assert (a + b)[0] == a[0];
      assert (a + b)[1..] == a[1..] + b;
      OpensAppend(a[1..], b);
    }
  }

  /** Past a match there is at least one `{` fewer. */
  lemma OpensPast(t: string, m: Match)
    requires MatchAt(t, m.start) == Some(m)
    ensures Opens(t[m.end..]) < Opens(t)
  {
    assert t[..m.end] + t[m.end..] == t;
    OpensAppend(t[..m.end], t[m.end..]);
    assert t[..m.start] + t[m.start..m.end] == t[..m.end];
    OpensAppend(t[..m.start], t[m.start..m.end]);
    assert t[m.start..m.end][0] == '{';
  }

  lemma SafeSuffix(s: string, k: nat, body: Value, query: Value)
    requires k <= |s| && ExpandsSafely(s, body, query)
    ensures ExpandsSafely(s[k..], body, query)
  {
    var rest := s[k..];
    forall i | 0 <= i < |rest| && rest[i] == '{'
      ensures SafeAt(rest, i, body, query)
    {
      assert s[k + i] == rest[i];
      assert SafeAt(s, k + i, body, query);
      MatchAtSuffix(s, k, k + i);
      SuffixMatch(s, k, MatchAt(s, k + i).value);
    }
  }

  /** `pat` first occurs at `k` when it occurs there and its first character occurs nowhere
      before. */
  lemma FirstOccurrence(s: string, pat: string, k: nat)
    requires pat != [] && OccursAt(s, pat, k)
    requires forall i :: 0 <= i < k ==> s[i] != pat[0]
    ensures IndexOf(s, pat, 0) == Some(k)
  {
    var r := IndexOf(s, pat, 0);
    IndexOfIsLeftmost(s, pat, 0);
    assert r.Some? by {
      assert OccursAt(s, pat, k);
    }
    assert s[r.value..r.value + |pat|][0] == s[r.value];
  }

  /** Past the brace-free text `path[..k]`, the search from `lastIndex` finds what the search
      of `path[k..]` finds. */
  lemma ExecPastBraceFree(path: string, k: nat, lastIndex: nat)
    requires lastIndex <= k <= |path| && '{' !in path[..k]
    ensures Exec(path, lastIndex) == Shift(FirstFrom(path[k..], 0), k)
  {
    forall i | lastIndex <= i < k
      ensures path[i] != '{'
    {
      assert path[i] == path[..k][i];
    }
    SkipsNoBrace(path, lastIndex, k);
    FirstFromSuffix(path, k, k);
  }

  /** The text `path[a..b]` of a placeholder at `a`, with no `{` before it, first occurs at
      `a`: the program's `replace` hits that placeholder. */
  lemma ReplaceHits(path: string, a: nat, b: nat, v: string)
    requires a < b <= |path| && path[a] == '{' && forall i :: 0 <= i < a ==> path[i] != '{'
    ensures ReplaceFirst(path, path[a..b], v) == path[..a] + v + path[b..]
  {
    FirstOccurrence(path, path[a..b], a);
  }

  /** What one turn past the brace-free text `path[..k]` finds: the first placeholder of
      `path[k..]`, moved to its place in the path. */
  lemma TurnFinds(path: string, k: nat, lastIndex: nat, m: Match) returns (a: nat, b: nat)
    requires lastIndex <= k <= |path| && '{' !in path[..k]
    requires FirstFrom(path[k..], 0) == Some(m)
    ensures a == k + m.start && b == k + m.end && k <= a && a + 3 <= b <= |path|
    ensures Exec(path, lastIndex) == Some(Match(a, b))
    ensures Name(path, Match(a, b)) == Name(path[k..], m)
  {
    a, b := k + m.start, k + m.end;
    ExecPastBraceFree(path, k, lastIndex);
    NameOfSuffix(path, k, m, a, b);
  }

  /** The name of a placeholder of `path[k..]` is the name of the same placeholder of `path`. */
  lemma NameOfSuffix(path: string, k: nat, m: Match, a: nat, b: nat)
    requires k <= |path| && m.start + 2 <= m.end <= |path| - k && a == k + m.start && b == k + m.end
    ensures Name(path, Match(a, b)) == Name(path[k..], m)
  {
    SliceOfSuffix(path, k, m.start + 1, m.end - 1);
  }

  /** What the program's `replace` leaves when the placeholder `path[a..b]` is preceded by no
      `{` and its value holds none: brace-free text up to the end of the value, then the path
      after the placeholder. */
  lemma TurnLeaves(path: string, a: nat, b: nat, v: string) returns (next: string, j: nat)
    requires a < b <= |path| && path[a] == '{' && forall i :: 0 <= i < a ==> path[i] != '{'
    requires '{' !in v
    ensures next == ReplaceFirst(path, path[a..b], v)
    ensures j == a + |v| <= |next| && |next| - j == |path| - b
    ensures next[..j] == path[..a] + v && next[j..] == path[b..]
    ensures '{' !in next[..j]
  {
    next := ReplaceFirst(path, path[a..b], v);
    j := a + |v|;
    ReplaceHits(path, a, b, v);
    assert next[..j] == path[..a] + v;
    assert next[j..] == path[b..];
    assert '{' !in path[..a] by {
      forall i | 0 <= i < a
        ensures path[..a][i] != '{'
      {
        assert path[..a][i] == path[i];
      }
    }
  }

  /** Before the first placeholder of `path[k..]`, at `a`, only brace-free text comes. */
  lemma BraceFreeUpTo(path: string, k: nat, m: Match, a: nat)
    requires k <= |path| && '{' !in path[..k] && a == k + m.start < |path|
    requires path[k..][m.start] == '{'
    requires forall i :: 0 <= i < m.start ==> path[k..][i] != '{'
    ensures path[a] == '{' && forall i :: 0 <= i < a ==> path[i] != '{'
  {
    assert path[a] == path[k..][m.start];
    forall i | 0 <= i < a
      ensures path[i] != '{'
    {
      if i < k {
        assert path[i] == path[..k][i];
      } else {
        assert path[i] == path[k..][i - k];
      }
    }
  }

  /** One turn of the loop as written, with `left` turns to go after it, that finds the
      placeholder `path[start..end]` and replaces it by `v`. */
  lemma TurnAt(path: string, lastIndex: nat, body: Value, query: Value, left: nat, start: nat, end: nat, v: string)
    requires Exec(path, lastIndex) == Some(Match(start, end))
    requires start + 2 <= end <= |path| && Lookup(body, query, Name(path, Match(start, end))) == Some(v)
    ensures ExpandAsWritten(path, lastIndex, body, query, left + 1)
         == ExpandAsWritten(ReplaceFirst(path, path[start..end], v), end, body, query, left)
  {
  }

  /** One turn past the brace-free text `path[..k]` when `path[k..]` holds a placeholder that
      expands safely: the placeholder `path[a..b]` the search finds is preceded by no `{`, its
      value `v` holds none and is no shorter than it, and the rest of the path past it again
      expands safely. */
  lemma TurnDecompose(path: string, k: nat, lastIndex: nat, body: Value, query: Value, fuel: nat)
      returns (a: nat, b: nat, v: string)
    requires lastIndex <= k <= |path| && '{' !in path[..k]
    requires ExpandsSafely(path[k..], body, query) && fuel >= Opens(path[k..])
    requires FirstFrom(path[k..], 0).Some?
    ensures fuel > 0 && k <= a && a + 3 <= b <= |path| && Exec(path, lastIndex) == Some(Match(a, b))
    ensures Lookup(body, query, Name(path, Match(a, b))) == Some(v)
    ensures path[a] == '{' && (forall i :: 0 <= i < a ==> path[i] != '{') && '{' !in v && b <= a + |v|
    ensures ExpandsSafely(path[b..], body, query) && fuel - 1 >= Opens(path[b..])
    ensures path[..a] + v + Substitute(path[b..], body, query) == path[..k] + Substitute(path[k..], body, query)
  {
    var m := FirstFrom(path[k..], 0).value;
    v := FirstSafe(path[k..], m, body, query);
    a, b := TurnFinds(path, k, lastIndex, m);
    BraceFreeUpTo(path, k, m, a);
    PastPlaceholder(path, k, m, b, body, query, fuel);
    ExpandOnce(path, k, m, a, b, v, body, query);
  }

  /** The path past the first placeholder of `path[k..]`, which ends at `b`, again expands
      safely, with one `{` fewer. */
  lemma PastPlaceholder(path: string, k: nat, m: Match, b: nat, body: Value, query: Value, fuel: nat)
    requires k <= |path| && FirstFrom(path[k..], 0) == Some(m) && b == k + m.end
    requires ExpandsSafely(path[k..], body, query) && fuel >= Opens(path[k..])
    ensures b <= |path| && ExpandsSafely(path[b..], body, query) && fuel - 1 >= Opens(path[b..])
  {
    SafeSuffix(path[k..], m.end, body, query);
    OpensPast(path[k..], m);
    SplitAt(path, k, m.end, b);
  }

  /** `path[..k]` and `path[k..]` split at `j` further on. */
  lemma SplitAt(path: string, k: nat, j: nat, n: nat)
    requires n == k + j <= |path|
    ensures path[..n] == path[..k] + path[k..][..j]
    ensures path[n..] == path[k..][j..]
  {
  }

  /** Expanding `path[k..]` whose first placeholder is `m`, which becomes `v`. */
  lemma ExpandOnce(path: string, k: nat, m: Match, a: nat, b: nat, v: string, body: Value, query: Value)
    requires k <= |path| && FirstFrom(path[k..], 0) == Some(m) && a == k + m.start && b == k + m.end
    requires Replacement(path[k..], m, body, query) == v
    ensures a <= b <= |path|
    ensures path[..a] + v + Substitute(path[b..], body, query) == path[..k] + Substitute(path[k..], body, query)
  {
    var t := path[k..];
    SubstituteFirst(t, m, body, query);
    SplitAt(path, k, m.start, a);
    SplitAt(path, k, m.end, b);
    Regroup3(path[..k], t[..m.start], v, Substitute(t[m.end..], body, query), Substitute(t, body, query));
  }

  /** The first placeholder of a path that expands safely: no `{` before it, and a value with
      no `{` that is at least as long as the placeholder. */
  lemma FirstSafe(t: string, m: Match, body: Value, query: Value) returns (v: string)
    requires ExpandsSafely(t, body, query) && FirstFrom(t, 0) == Some(m)
    ensures m.start + 3 <= m.end <= |t| && forall i :: 0 <= i < m.start ==> t[i] != '{'
    ensures Lookup(body, query, Name(t, m)) == Some(v) && Replacement(t, m, body, query) == v
    ensures '{' !in v && |v| >= m.end - m.start
  {
    FirstFromIsLeftmost(t, 0);
    forall i | 0 <= i < m.start
      ensures t[i] != '{'
    {
      assert !SafeAt(t, i, body, query);
    }
    assert SafeAt(t, m.start, body, query);
    v := Lookup(body, query, Name(t, m)).value;
  }

  lemma Regroup3(x: string, y: string, v: string, rest: string, whole: string)
    requires whole == y + v + rest
    ensures (x + y + v) + rest == x + whole
  {
  }

  /** The state the loop as written keeps on a path that expands safely: the search resumes at
      or before `k`, the text before `k` holds no `{`, every `{` from `k` on opens a placeholder
      that expands safely within the turns left, and the text before `k` followed by the
      corrected expansion of the rest is `out`. */
  ghost predicate LoopState(path: string, k: nat, lastIndex: nat, body: Value, query: Value, fuel: nat, out: string) {
    && lastIndex <= k <= |path| && '{' !in path[..k]
    && ExpandsSafely(path[k..], body, query) && fuel >= Opens(path[k..])
    && path[..k] + Substitute(path[k..], body, query) == out
  }

  /** From a state the loop as written keeps, it ends with `out`. */
  lemma {:induction false} AsWrittenFrom(path: string, k: nat, lastIndex: nat, body: Value, query: Value, fuel: nat, out: string)
    requires LoopState(path, k, lastIndex, body, query, fuel, out)
    ensures ExpandAsWritten(path, lastIndex, body, query, fuel) == Some(out)
    decreases |path| - k
  {
    if FirstFrom(path[k..], 0).None? {
      LoopEnds(path, k, lastIndex, body, query, fuel, out);
    } else {
      var next, j, b, left := Turn(path, k, lastIndex, body, query, fuel, out);
      AsWrittenFrom(next, j, b, body, query, left, out);
    }
  }

  /** With no placeholder past `k`, the loop as written stops with the path, which is `out`. */
  lemma LoopEnds(path: string, k: nat, lastIndex: nat, body: Value, query: Value, fuel: nat, out: string)
    requires LoopState(path, k, lastIndex, body, query, fuel, out) && FirstFrom(path[k..], 0).None?
    ensures ExpandAsWritten(path, lastIndex, body, query, fuel) == Some(out)
  {
    ExecPastBraceFree(path, k, lastIndex);
    assert path[..k] + path[k..] == path;
  }

  /** One turn of the loop as written from a state it keeps: it yields the path `next`, in the
      same kind of state with one turn fewer and less text left to expand. */
  lemma Turn(path: string, k: nat, lastIndex: nat, body: Value, query: Value, fuel: nat, out: string)
      returns (next: string, j: nat, b: nat, left: nat)
    requires LoopState(path, k, lastIndex, body, query, fuel, out) && FirstFrom(path[k..], 0).Some?
    ensures fuel == left + 1 && ExpandAsWritten(path, lastIndex, body, query, fuel) == ExpandAsWritten(next, b, body, query, left)
    ensures j <= |next| && |next| - j < |path| - k && LoopState(next, j, b, body, query, left, out)
  {
    var a, v;
    next, j, a, b, v, left := TurnText(path, k, lastIndex, body, query, fuel, out);
    TurnAt(path, lastIndex, body, query, left, a, b, v);
  }

  /** The text of one turn: the placeholder `path[a..b]` the search finds, its value `v`, and
      the path `next` that replacing it yields, in the state the loop keeps from `j` on. */
  lemma TurnText(path: string, k: nat, lastIndex: nat, body: Value, query: Value, fuel: nat, out: string)
      returns (next: string, j: nat, a: nat, b: nat, v: string, left: nat)
    requires LoopState(path, k, lastIndex, body, query, fuel, out) && FirstFrom(path[k..], 0).Some?
    ensures fuel == left + 1 && Exec(path, lastIndex) == Some(Match(a, b)) && a + 2 <= b <= |path|
    ensures Lookup(body, query, Name(path, Match(a, b))) == Some(v) && next == ReplaceFirst(path, path[a..b], v)
    ensures j == a + |v| <= |next| && |next| - j < |path| - k && LoopState(next, j, b, body, query, left, out)
  {
    a, b, v := TurnDecompose(path, k, lastIndex, body, query, fuel);
    next, j := TurnLeaves(path, a, b, v);
    left := fuel - 1;
    TurnKeeps(path, a, b, v, j, next, body, query, left, out);
  }

  /** Replacing the placeholder `path[a..b]` by `v` keeps the loop's state past the value, at `j`. */
  lemma TurnKeeps(path: string, a: nat, b: nat, v: string, j: nat, next: string, body: Value, query: Value, fuel: nat, out: string)
    requires a < b <= j == a + |v| <= |next| && b <= |path|
    requires next[..j] == path[..a] + v && next[j..] == path[b..] && '{' !in next[..j]
    requires ExpandsSafely(path[b..], body, query) && fuel >= Opens(path[b..])
    requires path[..a] + v + Substitute(path[b..], body, query) == out
    ensures LoopState(next, j, b, body, query, fuel, out)
  {
  }

  /** The loop as written and the corrected expansion agree on a path whose every `{` opens a
      placeholder that resolves to a value holding no `{` and no shorter than the placeholder:
      `lastIndex` then never passes the next placeholder and no inserted text is searched
      again. One turn per `{` suffices. */
  lemma AsWrittenAgrees(path: string, body: Value, query: Value, fuel: nat)
    requires ExpandsSafely(path, body, query) && fuel >= Opens(path)
    ensures ExpandAsWritten(path, 0, body, query, fuel) == Some(Substitute(path, body, query))
  {
    var e := Substitute(path, body, query);
    assert path[..0] == [] && path[0..] == path && [] + e == e;
    AsWrittenFrom(path, 0, 0, body, query, fuel, e);
  }

  /** Brace-free text, a placeholder that expands safely and a safe rest form a safe path. */
  lemma SafeLeading(pre: string, name: string, post: string, body: Value, query: Value)
    requires '{' !in pre && name != ""
    requires forall c :: c in name ==> c != '}' && c != '{' && !IsLineTerminator(c)
    requires Lookup(body, query, name).Some? && '{' !in Lookup(body, query, name).value
    requires |Lookup(body, query, name).value| >= |name| + 2
    requires ExpandsSafely(post, body, query)
    ensures ExpandsSafely(pre + "{" + name + "}" + post, body, query)
  {
    var s := pre + "{" + name + "}" + post;
    var end := |pre| + |name| + 2;
    LeadingMatch(pre, name, post);
    LeadingBraces(pre, name, post);
    forall i | 0 <= i < |s| && s[i] == '{'
      ensures SafeAt(s, i, body, query)
    {
      if i != |pre| {
        SafePast(s, end, i, body, query);
      }
    }
  }

  /** A `{` past `k` opens a placeholder that expands safely when the path from `k` on expands
      safely. */
  lemma SafePast(s: string, k: nat, i: nat, body: Value, query: Value)
    requires k <= i < |s| && s[i] == '{' && ExpandsSafely(s[k..], body, query)
    ensures SafeAt(s, i, body, query)
  {
    assert s[k..][i - k] == s[i];
    assert SafeAt(s[k..], i - k, body, query);
    MatchAtSuffix(s, k, i);
    SuffixMatch(s, k, MatchAt(s, i).value);
  }

  /** In brace-free text followed by `{name}` with no `{` in the name, every `{` is the one
      that opens the placeholder or lies past it. */
  lemma LeadingBraces(pre: string, name: string, post: string)
    requires '{' !in pre && forall c :: c in name ==> c != '{'
    ensures var s := pre + "{" + name + "}" + post;
      forall i :: 0 <= i < |s| && s[i] == '{' ==> i == |pre| || i >= |pre| + |name| + 2
  {
    var s := pre + "{" + name + "}" + post;
    forall i | 0 <= i < |pre| + |name| + 2 && i != |pre|
      ensures s[i] != '{'
    {
      if i < |pre| {
        assert s[i] == pre[i] && pre[i] in pre;
      } else if i < |pre| + |name| + 1 {
        assert s[i] == name[i - |pre| - 1] && name[i - |pre| - 1] in name;
      } else {
        assert s[i] == '}';
      }
    }
  }

  lemma OpensLeading(pre: string, name: string, post: string)
    requires '{' !in pre && '{' !in name
    ensures Opens(pre + "{" + name + "}" + post) == 1 + Opens(post)
  {
    OpensAppend(pre + "{" + name + "}", post);
    OpensAppend(pre + "{" + name, "}");
    OpensAppend(pre + "{", name);
    OpensAppend(pre, "{");
    OpensNone(pre);
    OpensNone(name);
  }

  lemma {:induction false} OpensNone(s: string)
    requires '{' !in s
    ensures Opens(s) == 0
  {
    if s != [] {
      assert s[0] in s;
      assert forall c :: c in s[1..] ==> c in s;
      OpensNone(s[1..]);
    }
  }

  /** The blob path of the consumption binding, `{appId}/{id}/consumption/{type}_data.json`,
      and the values the request supplies. */
  const ConsumptionPath: string := "{" + "appId" + "}" + ("/" + "{" + "id" + "}" + ("/consumption/" + "{" + "type" + "}" + "_data.json"))
  const ConsumptionBlob: string := "__mock__" + ("/" + "1000" + ("/consumption/" + "codeunit" + "_data.json"))
  const ConsumptionBody: Value := Obj(map["appId" := Str("__mock__"), "test" := Str("__fake__"), "type" := Str("codeunit"), "id" := Str("1000")])
  const SplitBody: Value := Obj(map["appId" := Str("__mock__"), "id" := Str("1000")])
  const SplitQuery: Value := Obj(map["test" := Str("__fake__"), "type" := Str("codeunit")])

  lemma ConsumptionExpands(body: Value, query: Value)
    requires Lookup(body, query, "appId") == Some("__mock__")
    requires Lookup(body, query, "id") == Some("1000")
    requires Lookup(body, query, "type") == Some("codeunit")
    ensures Substitute(ConsumptionPath, body, query) == ConsumptionBlob
  {
    var typePart := "/consumption/" + "{" + "type" + "}" + "_data.json";
    var idPart := "/" + "{" + "id" + "}" + typePart;
    var rest := "/" + "1000" + ("/consumption/" + "codeunit" + "_data.json");
    assert Substitute(idPart, body, query) == rest by {
      TypePartExpands(body, query);
      IdPartExpands(body, query, typePart);
    }
    assert Substitute(ConsumptionPath, body, query) == "__mock__" + rest by {
      SubstituteLeading("", "appId", idPart, body, query);
      assert "" + "{" == "{";
      assert "" + "__mock__" == "__mock__";
      assert ConsumptionPath == "{" + "appId" + "}" + idPart;
    }
  }

  lemma TypePartExpands(body: Value, query: Value)
    requires Lookup(body, query, "type") == Some("codeunit")
    ensures Substitute("/consumption/" + "{" + "type" + "}" + "_data.json", body, query)
         == "/consumption/" + "codeunit" + "_data.json"
  {
    SubstituteBraceFree("_data.json", body, query);
    SubstituteLeading("/consumption/", "type", "_data.json", body, query);
  }

  lemma IdPartExpands(body: Value, query: Value, rest: string)
    requires Lookup(body, query, "id") == Some("1000")
    ensures Substitute("/" + "{" + "id" + "}" + rest, body, query) == "/" + "1000" + Substitute(rest, body, query)
  {
    SubstituteLeading("/", "id", rest, body, query);
  }

  /** With every name supplied, by the body alone or by body and query together, the
      consumption path expands to the blob name the request handler reads. */
  lemma ConsumptionPathExpands()
    ensures Substitute(ConsumptionPath, ConsumptionBody, Undefined) == ConsumptionBlob
    ensures Substitute(ConsumptionPath, SplitBody, SplitQuery) == ConsumptionBlob
  {
    ConsumptionExpands(ConsumptionBody, Undefined);
    assert Prop(SplitBody, "type") == Undefined;
    ConsumptionExpands(SplitBody, SplitQuery);
  }

  /** The loop as written reaches the same blob name in three turns: each value is at least as
      long as its placeholder, so `lastIndex` never passes the next one. */
  lemma ConsumptionAsWritten(body: Value, query: Value)
    requires Lookup(body, query, "appId") == Some("__mock__")
    requires Lookup(body, query, "id") == Some("1000")
    requires Lookup(body, query, "type") == Some("codeunit")
    ensures ExpandAsWritten(ConsumptionPath, 0, body, query, 3) == Some(ConsumptionBlob)
  {
    ConsumptionSafe(body, query);
    AsWrittenAgrees(ConsumptionPath, body, query, 3);
    ConsumptionExpands(body, query);
  }

  /** Each of the three placeholders of the consumption path expands safely. */
  lemma ConsumptionSafe(body: Value, query: Value)
    requires Lookup(body, query, "appId") == Some("__mock__")
    requires Lookup(body, query, "id") == Some("1000")
    requires Lookup(body, query, "type") == Some("codeunit")
    ensures ExpandsSafely(ConsumptionPath, body, query) && Opens(ConsumptionPath) == 3
  {
    var typePart := "/consumption/" + "{" + "type" + "}" + "_data.json";
    var idPart := "/" + "{" + "id" + "}" + typePart;
    TypePartSafe(body, query, typePart);
    IdPartSafe(body, query, typePart, idPart);
    assert ConsumptionPath == "" + "{" + "appId" + "}" + idPart;
    SafeLeading("", "appId", idPart, body, query);
    OpensLeading("", "appId", idPart);
  }

  lemma IdPartSafe(body: Value, query: Value, typePart: string, idPart: string)
    requires Lookup(body, query, "id") == Some("1000")
    requires ExpandsSafely(typePart, body, query) && Opens(typePart) == 1
    requires idPart == "/" + "{" + "id" + "}" + typePart
    ensures ExpandsSafely(idPart, body, query) && Opens(idPart) == 2
  {
    SafeLeading("/", "id", typePart, body, query);
    OpensLeading("/", "id", typePart);
  }

  lemma TypePartSafe(body: Value, query: Value, typePart: string)
    requires Lookup(body, query, "type") == Some("codeunit")
    requires typePart == "/consumption/" + "{" + "type" + "}" + "_data.json"
    ensures ExpandsSafely(typePart, body, query) && Opens(typePart) == 1
  {
    BraceFreeSafe("_data.json", body, query);
    SafeLeading("/consumption/", "type", "_data.json", body, query);
    TypePartOpens(typePart);
  }

  lemma TypePartOpens(typePart: string)
    requires typePart == "/consumption/" + "{" + "type" + "}" + "_data.json"
    ensures Opens(typePart) == 1
  {
    OpensSingle("/consumption/", "type", "_data.json");
  }

  /** One placeholder between brace-free texts opens exactly once. */
  lemma OpensSingle(pre: string, name: string, post: string)
    requires '{' !in pre && '{' !in name && '{' !in post
    ensures Opens(pre + "{" + name + "}" + post) == 1
  {
    OpensNone(post);
    OpensLeading(pre, name, post);
  }

  /** Text without `{` expands safely. */
  lemma BraceFreeSafe(s: string, body: Value, query: Value)
    requires '{' !in s
    ensures ExpandsSafely(s, body, query)
  {
    forall i | 0 <= i < |s|
      ensures s[i] != '{'
    {
      assert s[i] in s;
    }
  }

  /** The loop as written expands the consumption path like the corrected expansion, for the
      body alone and for body and query together. */
  lemma ConsumptionPathAsWritten()
    ensures ExpandAsWritten(ConsumptionPath, 0, ConsumptionBody, Undefined, 3) == Some(ConsumptionBlob)
    ensures ExpandAsWritten(ConsumptionPath, 0, SplitBody, SplitQuery, 3) == Some(ConsumptionBlob)
  {
    ConsumptionAsWritten(ConsumptionBody, Undefined);
    assert Prop(SplitBody, "type") == Undefined;
    ConsumptionAsWritten(SplitBody, SplitQuery);
  }
}
