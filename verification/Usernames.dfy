/** Login names for a washing point's staff and worker accounts. */
module Usernames {
  import opened Decimal
  import opened Iteration
  import opened Options

  // ----- slugs -----

  predicate IsAlnum(c: char) {
    'a' <= c <= 'z' || IsDigit(c)
  }

  /** Lower case, as far as it can yield a letter of a slug: besides A..Z that is the
      dotted capital I and the Kelvin sign. */
  function LowerChar(c: char): char {
    if 'A' <= c <= 'Z' then c - 'A' + 'a' else if c == '\U{130}' then 'i' else if c == '\U{212A}' then 'k' else c
  }

  function ToLower(s: string): string {
    seq(|s|, i requires 0 <= i < |s| => LowerChar(s[i]))
  }

  /** Every run of other characters becomes one hyphen. */
  function Hyphenate(s: string): string {
    if s == "" then ""
    else
      var r, c := Hyphenate(s[..|s| - 1]), s[|s| - 1];
      if IsAlnum(c) then r + [c]
      else if r != "" && r[|r| - 1] == '-' then r
      else r + ['-']
  }

  function TrimHead(s: string): string {
    if s != "" && s[0] == '-' then s[1..] else s
  }

  function TrimTail(s: string): string {
    if s != "" && s[|s| - 1] == '-' then s[..|s| - 1] else s
  }

  /** Hyphens off both ends; after hyphenation there is at most one at each. */
  function Trim(s: string): string {
    TrimTail(TrimHead(s))
  }

  function Slugify(name: string): string {
    var s := Trim(Hyphenate(ToLower(name)));
    if s == "" then "point" else s
  }

  ghost predicate Hyphenated(s: string) {
    && (forall i :: 0 <= i < |s| ==> IsAlnum(s[i]) || s[i] == '-')
    && (forall i :: 0 <= i < |s| - 1 ==> s[i] != '-' || s[i + 1] != '-')
  }

  /** Letters and digits joined by single hyphens. */
  ghost predicate IsSlug(s: string) {
    Hyphenated(s) && s != "" && s[0] != '-' && s[|s| - 1] != '-'
  }

  /** What a slug keeps of a name. */
  function Alnums(s: string): string {
    if s == "" then ""
    else Alnums(s[..|s| - 1]) + if IsAlnum(s[|s| - 1]) then [s[|s| - 1]] else []
  }

  lemma {:induction false} HyphenateShape(s: string)
    ensures Hyphenated(Hyphenate(s))
  {
    if s != "" {
      HyphenateShape(s[..|s| - 1]);
    }
  }

  lemma {:induction false} HyphenateKeeps(s: string)
    ensures Alnums(Hyphenate(s)) == Alnums(s)
  {
    if s != "" {
      var r, h := Hyphenate(s[..|s| - 1]), Hyphenate(s);
      HyphenateKeeps(s[..|s| - 1]);
      if h != r {
        assert h[..|r|] == r && |h| == |r| + 1;
      }
    }
  }

  lemma {:induction false} HyphenateDone(s: string)
    requires Hyphenated(s)
    ensures Hyphenate(s) == s
  {
    if s != "" {
      var n := |s| - 1;
      HyphenateDone(s[..n]);
      assert n > 0 ==> s[n - 1] != '-' || s[n] != '-';
      assert s == s[..n] + [s[n]];
    }
  }

  lemma {:induction false} AlnumsAppend(a: string, b: string)
    ensures Alnums(a + b) == Alnums(a) + Alnums(b)
  {
    if b == "" {
      assert a + b == a;
    } else {
      var n := |b| - 1;
      assert (a + b)[..|a| + n] == a + b[..n];
      AlnumsAppend(a, b[..n]);
    }
  }

  lemma OneHyphen()
    ensures Alnums("-") == ""
  {
    assert "-"[..0] == "";
  }

  lemma HeadShape(s: string)
    requires Hyphenated(s)
    ensures Hyphenated(TrimHead(s)) && (TrimHead(s) == "" || TrimHead(s)[0] != '-')
    ensures Alnums(TrimHead(s)) == Alnums(s)
  {
    if s != "" && s[0] == '-' {
      var t := s[1..];
      assert t != "" ==> t[0] == s[1];
      OneHyphen();
      assert s == "-" + t;
      AlnumsAppend("-", t);
    }
  }

  lemma TailShape(t: string)
    requires Hyphenated(t) && (t == "" || t[0] != '-')
    ensures TrimTail(t) != "" ==> IsSlug(TrimTail(t))
    ensures Alnums(TrimTail(t)) == Alnums(t)
  {
  }

  lemma TrimShape(s: string)
    requires Hyphenated(s)
    ensures Trim(s) != "" ==> IsSlug(Trim(s))
    ensures Alnums(Trim(s)) == Alnums(s)
    ensures IsSlug(s) ==> Trim(s) == s
  {
    HeadShape(s);
    TailShape(TrimHead(s));
  }

  lemma {:induction false} AlnumSeen(s: string, i: nat)
    requires i < |s| && IsAlnum(s[i])
    ensures Alnums(s) != ""
  {
    if i < |s| - 1 {
      AlnumSeen(s[..|s| - 1], i);
    }
  }

  lemma NothingLeft(s: string)
    requires Hyphenated(s) && Alnums(s) == ""
    ensures Trim(s) == ""
  {
    forall i | 0 <= i < |s| ensures s[i] == '-' {
      if IsAlnum(s[i]) {
        AlnumSeen(s, i);
      }
    }
  }

  /** Any name has a slug: letters and digits joined by single hyphens, keeping exactly the
      letters and digits of the lower-cased name, or "point" if it has none. */
  lemma SlugMeaning(name: string)
    ensures IsSlug(Slugify(name))
    ensures Alnums(Slugify(name)) == if Alnums(ToLower(name)) == "" then "point" else Alnums(ToLower(name))
  {
    var h := Hyphenate(ToLower(name));
    HyphenateShape(ToLower(name));
    HyphenateKeeps(ToLower(name));
    TrimShape(h);
    if Alnums(h) == "" {
      NothingLeft(h);
      AllAlnum("point");
    }
  }

  lemma {:induction false} AllAlnum(s: string)
    requires forall i :: 0 <= i < |s| ==> IsAlnum(s[i])
    ensures Alnums(s) == s
  {
    if s != "" {
      AllAlnum(s[..|s| - 1]);
    }
  }

  /** A slug is its own slug, so slugging twice changes nothing. */
  lemma SlugOfSlug(name: string)
    ensures IsSlug(name) ==> Slugify(name) == name
    ensures Slugify(Slugify(name)) == Slugify(name)
  {
    SlugMeaning(name);
    forall s | IsSlug(s) ensures Slugify(s) == s {
      assert ToLower(s) == s;
      HyphenateDone(s);
      TrimShape(s);
    }
  }

  // ----- candidates -----

  /** base, base-2, base-3, ... */
  function Candidate(base: string, i: nat): string
    requires i >= 1
  {
    if i == 1 then base else base + "-" + Itoa(i)
  }

  lemma CandidatesDiffer(base: string, i: nat, j: nat)
    requires i >= 1 && j >= 1
    ensures Candidate(base, i) == Candidate(base, j) <==> i == j
  {
    ItoaInjective(i, j);
    if i > 1 && j > 1 {
      assert Candidate(base, i)[|base| + 1..] == Itoa(i) && Candidate(base, j)[|base| + 1..] == Itoa(j);
    }
  }

  /** A point's staff and worker names never meet: after the base one continues with a
      digit, the other with a letter. */
  lemma StaffIsNotWorker(base: string, i: nat, j: nat)
    requires i >= 1 && j >= 1
    ensures Candidate(base, i) != Candidate(base + "-worker", j)
  {
    var worker := Candidate(base + "-worker", j);
    assert worker[|base| + 1] == 'w';
    if i > 1 {
      assert Candidate(base, i)[|base| + 1] == Itoa(i)[0];
    }
  }

  /** The taken candidates not yet probed. */
  ghost function TakenAhead(existing: set<string>, base: string, i: nat): set<string>
    requires i >= 1
  {
    set u | u in existing && exists k: nat :: k >= i && Candidate(base, k) == u
  }

  lemma ProbeTaken(existing: set<string>, base: string, i: nat)
    requires i >= 1 && Candidate(base, i) in existing
    ensures |TakenAhead(existing, base, i + 1)| == |TakenAhead(existing, base, i)| - 1
  {
    var c := Candidate(base, i);
    forall u ensures u in TakenAhead(existing, base, i) <==> u == c || u in TakenAhead(existing, base, i + 1) {
      if u in TakenAhead(existing, base, i) && u != c {
        var k: nat :| k >= i && Candidate(base, k) == u;
        assert k >= i + 1;
      }
    }
    if c in TakenAhead(existing, base, i + 1) {
      var k: nat :| k >= i + 1 && Candidate(base, k) == c;
      CandidatesDiffer(base, i, k);
    }
    assert TakenAhead(existing, base, i) == TakenAhead(existing, base, i + 1) + {c};
  }

  /** name is the n-th candidate and all before it are taken. */
  ghost predicate IsFirstFree(existing: set<string>, base: string, n: nat, name: string) {
    && n >= 1 && name == Candidate(base, n) && name !in existing
    && forall k: nat :: 1 <= k < n ==> Candidate(base, k) in existing
  }

  ghost predicate FirstFree(existing: set<string>, base: string, name: string) {
    exists n: nat :: n <= |existing| + 1 && IsFirstFree(existing, base, n, name)
  }

  /** The search always ends, so some name is the first free one. */
  lemma AlwaysOneFree(existing: set<string>, base: string) returns (name: string)
    ensures FirstFree(existing, base, name)
  {
    var i := 1;
    SubsetSize(TakenAhead(existing, base, 1), existing);
    while Candidate(base, i) in existing
      invariant i >= 1 && forall k: nat :: 1 <= k < i ==> Candidate(base, k) in existing
      invariant i + |TakenAhead(existing, base, i)| <= |existing| + 1
      decreases |TakenAhead(existing, base, i)|
    {
      ProbeTaken(existing, base, i);
      i := i + 1;
    }
    name := Candidate(base, i);
    assert IsFirstFree(existing, base, i, name);
  }

  lemma FirstFreeIsBounded(existing: set<string>, base: string, n: nat, name: string)
    requires IsFirstFree(existing, base, n, name)
    ensures FirstFree(existing, base, name)
  {
    var other := AlwaysOneFree(existing, base);
    var m: nat :| m <= |existing| + 1 && IsFirstFree(existing, base, m, other);
    if m < n {
      assert false;
    }
  }

  lemma WithoutOther(existing: set<string>, other: string, base: string, name: string)
    requires FirstFree(existing + {other}, base, name)
    requires forall k: nat :: k >= 1 ==> Candidate(base, k) != other
    ensures FirstFree(existing, base, name) && name != other
  {
    var n: nat :| n <= |existing + {other}| + 1 && IsFirstFree(existing + {other}, base, n, name);
    forall k: nat | 1 <= k < n ensures Candidate(base, k) in existing {
      assert Candidate(base, k) in existing + {other};
    }
    FirstFreeIsBounded(existing, base, n, name);
  }

  /** A worker name that is free after the staff account was added is the first free before. */
  lemma FreeBeforeToo(existing: set<string>, base: string, staff: string, worker: string)
    requires FirstFree(existing, base, staff) && FirstFree(existing + {staff}, base + "-worker", worker)
    ensures FirstFree(existing, base + "-worker", worker) && staff != worker
  {
    var m: nat :| m <= |existing| + 1 && IsFirstFree(existing, base, m, staff);
    forall k: nat | k >= 1 ensures Candidate(base + "-worker", k) != staff {
      StaffIsNotWorker(base, m, k);
    }
    WithoutOther(existing, staff, base + "-worker", worker);
  }

  const MAX_USERNAME := 50

  /** The account is made under name exactly when the column can hold it. */
  ghost predicate Created(username: Option<string>, name: string) {
    username == if |name| <= MAX_USERNAME then Some(name) else None
  }

  ghost function WithAccount(users: map<string, User>, username: Option<string>, user: User): map<string, User> {
    if username.Some? then users[username.value := user] else users
  }

  datatype Role = Staff | Worker

  datatype User = User(role: Role, washingPoint: nat)

  class Accounts {
    var users: map<string, User>

    constructor ()
      ensures users == map[]
    {
      users := map[];
    }

    /** Probes the candidates in order; each probe but the last meets a taken name, so
        there is at most one more probe than there are names. */
    method UniqueUsername(base: string) returns (candidate: string)
      ensures FirstFree(users.Keys, base, candidate)
    {
      var i := 1;
      candidate := base;
      SubsetSize(TakenAhead(users.Keys, base, 1), users.Keys);
      while candidate in users
        invariant i >= 1 && candidate == Candidate(base, i)
        invariant forall k: nat :: 1 <= k < i ==> Candidate(base, k) in users
        invariant i + |TakenAhead(users.Keys, base, i)| <= |users.Keys| + 1
        decreases |TakenAhead(users.Keys, base, i)|
      {
        ProbeTaken(users.Keys, base, i);
        i := i + 1;
        candidate := Candidate(base, i);
      }
      assert IsFirstFree(users.Keys, base, i, candidate);
    }

    /** The first free name becomes an account, unless the column cannot hold it. */
    method NewCredential(washingPoint: nat, role: Role, usernameBase: string) returns (username: Option<string>)
      modifies this
      ensures exists name :: FirstFree(old(users.Keys), usernameBase, name) && Created(username, name)
      ensures users == WithAccount(old(users), username, User(role, washingPoint))
      ensures username.Some? ==> |username.value| <= 50
    {
      var name := UniqueUsername(usernameBase);
      if |name| > MAX_USERNAME {
        username := None;
      } else {
        users := users[name := User(role, washingPoint)];
        username := Some(name);
      }
    }

    /** A new point gets two accounts under two different fresh names, or none. Each name is
        the first free one before the call: the staff name is no candidate for the worker. */
    method ProvisionPointAccounts(washingPoint: nat, pointName: string) returns (r: Option<(string, string)>)
      modifies this
      ensures r.None? ==> users == old(users)
      ensures r.Some? ==>
        var (staff, worker) := r.value;
        && staff != worker && staff !in old(users) && worker !in old(users)
        && users == old(users)[staff := User(Staff, washingPoint)][worker := User(Worker, washingPoint)]
      ensures exists staff, worker ::
        && FirstFree(old(users.Keys), Slugify(pointName), staff)
        && FirstFree(old(users.Keys), Slugify(pointName) + "-worker", worker)
        && r == if |staff| <= MAX_USERNAME && |worker| <= MAX_USERNAME then Some((staff, worker)) else None
    {
      var saved := users;
      var base := Slugify(pointName);
      var staff := NewCredential(washingPoint, Staff, base);
      ghost var staffName :| FirstFree(saved.Keys, base, staffName) && Created(staff, staffName);
      if staff.None? {
        ghost var workerName := AlwaysOneFree(saved.Keys, base + "-worker");
        return None;
      }
      assert users.Keys == saved.Keys + {staffName};
      var worker := NewCredential(washingPoint, Worker, base + "-worker");
      ghost var workerName :| FirstFree(saved.Keys + {staffName}, base + "-worker", workerName) && Created(worker, workerName);
      FreeBeforeToo(saved.Keys, base, staffName, workerName);
      if worker.None? {
        users := saved;
        return None;
      }
      r := Some((staff.value, worker.value));
    }

    /** The missing account of an existing point gets a name derived the same way. */
    method ProvisionAccount(washingPoint: nat, role: Role, pointName: string) returns (username: Option<string>)
      modifies this
      ensures exists name ::
        && FirstFree(old(users.Keys), if role.Worker? then Slugify(pointName) + "-worker" else Slugify(pointName), name)
        && Created(username, name)
      ensures users == WithAccount(old(users), username, User(role, washingPoint))
    {
      var base := Slugify(pointName);
      if role.Worker? {
        base := base + "-worker";
      }
      username := NewCredential(washingPoint, role, base);
    }
  }

  // ----- how names read -----

  /** The first candidate is the base; the i-th, from the second on, is the base, a hyphen and i
      in decimal. */
  lemma CandidateReads(base: string, i: nat)
    requires i >= 1
    ensures i == 1 ==> Candidate(base, i) == base
    ensures i >= 2 ==>
              && base + "-" <= Candidate(base, i)
              && var digits := Candidate(base, i)[|base| + 1..];
                 digits != "" && AllDigits(digits) && Value(digits) == i && digits[0] != '0'
  {
    if i >= 2 {
      assert Candidate(base, i)[|base| + 1..] == Itoa(i);
    }
  }

  const CAPITALS: string := "ABCDEFGHIJKLMNOPQRSTUVWXYZ"
  const SMALL: string := "abcdefghijklmnopqrstuvwxyz"

  /** Capitals become the small letters in the same place. */
  lemma LowerReads(k: nat)
    requires k < 26
    ensures LowerChar(CAPITALS[k]) == SMALL[k]
  {
    assert CAPITALS[k] as int == 'A' as int + k && SMALL[k] as int == 'a' as int + k;
  }

  /** What a slug keeps are the small letters and the digits, and lower-casing leaves them alone. */
  lemma AlnumReads(c: char)
    ensures IsAlnum(c) <==> c in SMALL || c in "0123456789"
    ensures IsAlnum(c) ==> LowerChar(c) == c
  {
    SmallReads(c);
    DigitReads(c);
  }

  lemma SmallReads(c: char)
    ensures 'a' <= c <= 'z' <==> c in SMALL
  {
    if 'a' <= c <= 'z' {
      assert SMALL[c as int - 'a' as int] == c;
    }
  }

  lemma DigitReads(c: char)
    ensures IsDigit(c) <==> c in "0123456789"
  {
    if IsDigit(c) {
      assert "0123456789"[c as int - '0' as int] == c;
    }
  }

  /** The longest runs of letters and digits of a string. */
  function Words(s: string): seq<string> {
    if s == "" then []
    else
      var n := |s| - 1;
      var before := Words(s[..n]);
      if !IsAlnum(s[n]) then before
      else if n > 0 && IsAlnum(s[n - 1]) && before != [] then
        before[..|before| - 1] + [before[|before| - 1] + [s[n]]]
      else before + [[s[n]]]
  }

  /** Words with single hyphens between them. */
  function Joined(words: seq<string>): string {
    if words == [] then ""
    else if |words| == 1 then words[0]
    else Joined(words[..|words| - 1]) + "-" + words[|words| - 1]
  }

  ghost predicate AllWords(words: seq<string>) {
    forall k :: 0 <= k < |words| ==> words[k] != "" && forall i :: 0 <= i < |words[k]| ==> IsAlnum(words[k][i])
  }

  lemma {:induction false} WordsAreWords(s: string)
    ensures AllWords(Words(s))
    ensures Words(s) == [] <==> forall i :: 0 <= i < |s| ==> !IsAlnum(s[i])
  {
    if s != "" {
      WordsAreWords(s[..|s| - 1]);
    }
  }

  lemma {:induction false} JoinedEnds(words: seq<string>)
    requires AllWords(words) && words != []
    ensures var j := Joined(words); j != "" && IsAlnum(j[0]) && IsAlnum(j[|j| - 1])
  {
    if |words| > 1 {
      JoinedEnds(words[..|words| - 1]);
    }
  }

  lemma LongerWord(lead: string, words: seq<string>, last: string, c: char)
    ensures lead + Joined(words + [last + [c]]) == lead + Joined(words + [last]) + [c]
  {
    assert (words + [last])[..|words|] == words;
    assert (words + [last + [c]])[..|words|] == words;
    assert Joined(words + [last + [c]]) == Joined(words + [last]) + [c];
  }

  lemma AnotherWord(lead: string, words: seq<string>, c: char)
    ensures lead + Joined(words + [[c]]) == lead + Joined(words) + (if words == [] then [c] else "-" + [c])
  {
    assert (words + [[c]])[..|words|] == words;
    assert Joined(words + [[c]]) == Joined(words) + if words == [] then [c] else "-" + [c];
  }

  predicate EndsInWord(s: string) {
    s != "" && IsAlnum(s[|s| - 1])
  }

  lemma OtherAdded(p: string, c: char)
    requires !IsAlnum(c)
    ensures Words(p + [c]) == Words(p)
  {
    assert (p + [c])[..|p|] == p;
  }

  lemma WordGrows(p: string, c: char) returns (head: seq<string>, last: string)
    requires EndsInWord(p) && IsAlnum(c) && Words(p) != []
    ensures Words(p) == head + [last] && Words(p + [c]) == head + [last + [c]]
  {
    assert (p + [c])[..|p|] == p;
    var words := Words(p);
    head, last := words[..|words| - 1], words[|words| - 1];
  }

  lemma WordStarts(p: string, c: char)
    requires !EndsInWord(p) && IsAlnum(c)
    ensures Words(p + [c]) == Words(p) + [[c]]
  {
    assert (p + [c])[..|p|] == p;
  }

  /** The hyphen of a string that begins with no letter or digit. */
  function Lead(s: string): string {
    if s != "" && !IsAlnum(s[0]) then "-" else ""
  }

  function Front(s: string): string {
    Lead(s) + Joined(Words(s))
  }

  lemma FrontGrows(p: string, c: char)
    requires p != "" && (Words(p) == [] ==> !IsAlnum(p[0]))
    ensures !IsAlnum(c) ==> Front(p + [c]) == Front(p)
    ensures IsAlnum(c) && EndsInWord(p) && Words(p) != [] ==> Front(p + [c]) == Front(p) + [c]
    ensures IsAlnum(c) && !EndsInWord(p) ==>
              Front(p + [c]) == Front(p) + if Words(p) == [] then [c] else "-" + [c]
  {
    assert (p + [c])[0] == p[0];
    if !IsAlnum(c) {
      OtherAdded(p, c);
    } else if !EndsInWord(p) {
      WordStarts(p, c);
      AnotherWord(Lead(p), Words(p), c);
    } else if Words(p) != [] {
      var head, last := WordGrows(p, c);
      LongerWord(Lead(p), head, last, c);
    }
  }

  /** The hyphen of a string whose end is no letter or digit but that has a word. */
  function Back(s: string): string {
    if Words(s) != [] && !EndsInWord(s) then "-" else ""
  }

  lemma HyphenateGrows(p: string, c: char)
    requires p != "" && Hyphenate(p) == Front(p) + Back(p)
    requires Words(p) == [] ==> Front(p) == "-"
    ensures Hyphenate(p + [c]) ==
            if IsAlnum(c) then Hyphenate(p) + [c]
            else if EndsInWord(p) then Hyphenate(p) + "-"
            else Hyphenate(p)
  {
    assert (p + [c])[..|p|] == p;
    assert EndsInWord(p) ==> Hyphenate(p) == Hyphenate(p[..|p| - 1]) + [p[|p| - 1]];
  }

  lemma WordlessFront(p: string)
    requires p != ""
    ensures EndsInWord(p) ==> Words(p) != []
    ensures Words(p) == [] ==> !IsAlnum(p[0]) && Front(p) == "-"
  {
    WordsAreWords(p);
  }

  lemma OneCharacter(c: char)
    ensures Hyphenate([c]) == Front([c]) + Back([c])
  {
    assert [c][..0] == "" && Joined([[c]]) == [c];
    if IsAlnum(c) {
      WordStarts("", c);
      assert Words("" + [c]) == [[c]] && "" + [c] == [c];
    } else {
      OtherAdded("", c);
      assert "" + [c] == [c];
    }
  }

  /** Hyphenation puts one hyphen between any two words, and one at an end that is no letter
      or digit. */
  lemma {:induction false} HyphensAreBetweenWords(s: string)
    ensures Hyphenate(s) == Front(s) + Back(s)
  {
    if |s| > 1 {
      var n := |s| - 1;
      var p, c := s[..n], s[n];
      HyphensAreBetweenWords(p);
      HyphensStep(p, c);
      assert s == p + [c];
    } else if |s| == 1 {
      OneCharacter(s[0]);
      assert s == [s[0]];
    }
  }

  lemma BackGrows(p: string, c: char)
    ensures Back(p + [c]) == if IsAlnum(c) || Words(p) == [] then "" else "-"
  {
    if !IsAlnum(c) {
      OtherAdded(p, c);
    }
  }

  lemma OneHyphenBetween(f: string, c: char)
    ensures (f + "-") + [c] == f + ("-" + [c])
  {
  }

  lemma HyphensStep(p: string, c: char)
    requires p != "" && Hyphenate(p) == Front(p) + Back(p)
    ensures Hyphenate(p + [c]) == Front(p + [c]) + Back(p + [c])
  {
    WordlessFront(p);
    HyphenateGrows(p, c);
    FrontGrows(p, c);
    BackGrows(p, c);
    OneHyphenBetween(Front(p), c);
  }

  lemma TrimEnds(front: string, j: string, back: string)
    requires front in {"", "-"} && back in {"", "-"}
    requires j != "" && j[0] != '-' && j[|j| - 1] != '-'
    ensures Trim(front + j + back) == j
  {
    var s := front + j + back;
    assert TrimHead(s) == j + back by {
      assert s[0] == if front == "" then j[0] else '-';
    }
    assert (j + back)[|j + back| - 1] == if back == "" then j[|j| - 1] else '-';
  }

  /** A slug is the words of the lower-cased name with a hyphen between any two. */
  lemma SlugIsWords(name: string)
    ensures var words := Words(ToLower(name)); Slugify(name) == if words == [] then "point" else Joined(words)
  {
    var s := ToLower(name);
    HyphensAreBetweenWords(s);
    WordsAreWords(s);
    if Words(s) != [] {
      JoinedEnds(Words(s));
      TrimEnds(Lead(s), Joined(Words(s)), if EndsInWord(s) then "" else "-");
    }
  }
}
