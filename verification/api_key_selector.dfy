/**
 * api_key_selector.py: choosing a New Relic API key for an account from variables named
 * NEW_RELIC_API_KEY_<ORDER>_FOR_<ACCOUNT>, and listing the configured accounts by ORDER.
 * The process environment is a parameter: its variables as (name, value) pairs in
 * iteration order.
 */
module ApiKeySelector {
  import opened Wrappers
  import opened Strs
  import Seqs

  const KeyPrefix: string := "NEW_RELIC_API_KEY_"
  const Separator: string := "_FOR_"

  type Environment = seq<(string, string)>

  /** The two ValueErrors of get_new_relic_api_key. */
  datatype KeyError = EmptyAccount | KeyNotFound

  // ---------------------------------------------------------------- one account's key

  /** A variable for `account`: the prefix, a non-empty ORDER, then `_FOR_` and the upper-cased account. */
  predicate KeyFor(name: string, account: string)
  {
    var suffix := Separator + Upper(account);
    StartsWith(name, KeyPrefix) && EndsWith(name, suffix) && |name| > |KeyPrefix| + |suffix|
  }

  /** The match test is exactly "prefix, some non-empty ORDER, suffix". */
  lemma KeyForShape(name: string, account: string)
    ensures KeyFor(name, account) <==>
            exists order: string :: |order| > 0 && name == KeyPrefix + order + (Separator + Upper(account))
  {
    Framed(name, KeyPrefix, Separator + Upper(account));
  }

  /** The first variable, from `from` on, that holds a key for `account`. */
  function FirstKey(env: Environment, account: string, from: nat): (r: Option<nat>)
    decreases |env| - from
    ensures r.Some? ==> from <= r.value < |env|
  {
    if from >= |env| then None
    else if KeyFor(env[from].0, account) then Some(from)
    else FirstKey(env, account, from + 1)
  }

  /** The search finds the first match at or after `from`, or reports that there is none. */
  lemma {:induction false} FirstKeyFirst(env: Environment, account: string, from: nat)
    decreases |env| - from
    ensures FirstKey(env, account, from).Some? ==>
              KeyFor(env[FirstKey(env, account, from).value].0, account)
              && forall j :: from <= j < FirstKey(env, account, from).value ==> !KeyFor(env[j].0, account)
    ensures FirstKey(env, account, from).None? ==> forall j :: from <= j < |env| ==> !KeyFor(env[j].0, account)
  {
    if from < |env| && !KeyFor(env[from].0, account) {
      FirstKeyFirst(env, account, from + 1);
    }
  }

  /** get_new_relic_api_key. */
  function ApiKey(env: Environment, account: string): (r: Result<string, KeyError>)
    ensures r == Err(EmptyAccount) <==> Strip(account) == ""
  {
    if Strip(account) == "" then Err(EmptyAccount)
    else
      match FirstKey(env, account, 0)
      case Some(i) => Ok(env[i].1)
      case None => Err(KeyNotFound)
  }

  /** The key returned is the value of the first matching variable; none matching is the other error. */
  lemma ApiKeyFirstMatch(env: Environment, account: string)
    ensures ApiKey(env, account).Ok? ==>
              exists i :: 0 <= i < |env| && KeyFor(env[i].0, account) && env[i].1 == ApiKey(env, account).value
                          && forall j :: 0 <= j < i ==> !KeyFor(env[j].0, account)
    ensures ApiKey(env, account) == Err(KeyNotFound) <==>
              Strip(account) != "" && forall i :: 0 <= i < |env| ==> !KeyFor(env[i].0, account)
  {
    FirstKeyFirst(env, account, 0);
    if Strip(account) != "" {
      var f := FirstKey(env, account, 0);
      if f.Some? {
        assert KeyFor(env[f.value].0, account);
      }
    }
  }

  /** The lookup ignores the case of the account it is given. */
  lemma ApiKeyIgnoresCase(env: Environment, a: string, b: string)
    requires Upper(a) == Upper(b)
    ensures ApiKey(env, a) == ApiKey(env, b)
  {
    UpperKeepsBlank(a, b);
    forall name ensures KeyFor(name, a) == KeyFor(name, b) {
    }
    assert FirstKey(env, a, 0) == FirstKey(env, b, 0) by {
      FirstKeySame(env, a, b, 0);
    }
  }

  lemma {:induction false} FirstKeySame(env: Environment, a: string, b: string, from: nat)
    requires Upper(a) == Upper(b)
    ensures FirstKey(env, a, from) == FirstKey(env, b, from)
    decreases |env| - from
  {
    if from < |env| {
      FirstKeySame(env, a, b, from + 1);
    }
  }

  /** The loop over the environment with its early return. */
  method GetNewRelicApiKey(env: Environment, account: string) returns (r: Result<string, KeyError>)
    ensures r == ApiKey(env, account)
  {
    if Strip(account) == "" {
      return Err(EmptyAccount);
    }
    var i := 0;
    while i < |env|
      invariant i <= |env|
      invariant FirstKey(env, account, 0) == FirstKey(env, account, i)
    {
      var (name, value) := env[i];
      if KeyFor(name, account) {
        return Ok(value);
      }
      i := i + 1;
    }
    assert FirstKey(env, account, i) == None;
    assert FirstKey(env, account, 0) == None;
    assert ApiKey(env, account) == Err(KeyNotFound);
    return Err(KeyNotFound);
  }

  // ---------------------------------------------------------------- Python's int() on ORDER

  /** Digits with single underscores between them, as int() accepts. */
  predicate Underscored(s: string)
  {
    |s| > 0 && IsDigitChar(s[0]) && IsDigitChar(s[|s| - 1])
    && (forall i :: 0 <= i < |s| ==> IsDigitChar(s[i]) || s[i] == '_')
    && (forall i :: 0 < i < |s| && s[i] == '_' ==> s[i - 1] != '_')
  }

  function DropUnderscores(s: string): (r: string)
    ensures (forall i :: 0 <= i < |s| ==> IsDigitChar(s[i]) || s[i] == '_') ==> forall i :: 0 <= i < |r| ==> IsDigitChar(r[i])
  {
    if |s| == 0 then []
    else (if s[0] == '_' then [] else [s[0]]) + DropUnderscores(s[1..])
  }

  /** int(s) for a decimal string: surrounding whitespace, one sign, underscores between digits. */
  function ParseInt(s: string): (r: Option<int>)
  {
    var t := Strip(s);
    var negative := |t| > 0 && t[0] == '-';
    var body := if |t| > 0 && (t[0] == '-' || t[0] == '+') then t[1..] else t;
    match ParseDigits(body)
    case None => None
    case Some(n) =>
      var v: int := n;
      Some(if negative then -v else v)
  }

  /** The unsigned part of int(): digits with single underscores between them. */
  function ParseDigits(body: string): (r: Option<nat>)
  {
    if !Underscored(body) then None
    else
      Some(DigitsValue(DropUnderscores(body)))
  }

  lemma DropNoUnderscores(s: string)
    requires forall i :: 0 <= i < |s| ==> IsDigitChar(s[i])
    ensures DropUnderscores(s) == s
  {
    if |s| > 0 {
      DropNoUnderscores(s[1..]);
    }
  }

  /** What str(n) writes, int() reads back. */
  lemma ParseIntRoundTrip(n: nat)
    ensures ParseInt(NatToString(n)) == Some(n)
  {
    ParseIntDigits(NatToString(n));
  }

  /** A plain run of digits reads as its decimal value. */
  lemma ParseIntDigits(s: string)
    requires IsDigits(s)
    ensures ParseInt(s) == Some(DigitsValue(s))
  {
    DigitNotSpace(s[0]);
    DigitNotSpace(s[|s| - 1]);
    StripNoSpaceEnds(s);
    ParseDigitsPlain(s);
  }

  lemma ParseDigitsPlain(s: string)
    requires IsDigits(s)
    ensures ParseDigits(s) == Some(DigitsValue(s))
  {
    assert Underscored(s);
    DropNoUnderscores(s);
  }

  // ---------------------------------------------------------------- the sorted account listing

  /**
   * The (ORDER, ACCOUNT) entry a variable contributes: the prefix, `_FOR_` somewhere in the
   * name, a non-empty ORDER before the first `_FOR_` after the prefix, a non-empty account
   * after it, and an ORDER int() accepts.
   */
  function Entry(name: string): (r: seq<(int, string)>)
    ensures |r| <= 1
  {
    if StartsWith(name, KeyPrefix) && Contains(name, Separator) then
      var parts := SplitOnce(name[|KeyPrefix|..], Separator);
      if |parts| == 2 && |parts[0]| > 0 && |parts[1]| > 0 then
        match ParseInt(parts[0])
        case Some(order) => [(order, parts[1])]
        case None => []
      else []
    else []
  }

  /**
   * A qualifying variable is the prefix, a non-empty ORDER free of `_FOR_` that int() reads
   * as the entry's order, `_FOR_`, and the entry's non-empty account, verbatim.
   */
  lemma EntryShape(name: string)
    requires |Entry(name)| == 1
    ensures exists order: string :: |order| > 0 && !Contains(order, Separator)
              && ParseInt(order) == Some(Entry(name)[0].0)
              && name == KeyPrefix + (order + Separator + Entry(name)[0].1)
    ensures |Entry(name)[0].1| > 0
  {
    var rest := name[|KeyPrefix|..];
    var parts := SplitOnce(rest, Separator);
    assert name == KeyPrefix + rest;
    assert rest == parts[0] + Separator + parts[1];
  }

  /** The variables that qualify, in environment order. */
  function Entries(env: Environment): (r: seq<(int, string)>)
    ensures |r| <= |env|
  {
    if |env| == 0 then [] else Entries(env[..|env| - 1]) + Entry(env[|env| - 1].0)
  }

  predicate SortedByOrder(s: seq<(int, string)>)
  {
    forall i, j :: 0 <= i < j < |s| ==> s[i].0 <= s[j].0
  }

  /** The entries with one given ORDER, in sequence order. */
  function WithOrder(s: seq<(int, string)>, order: int): seq<(int, string)>
  {
    if |s| == 0 then []
    else WithOrder(s[..|s| - 1], order) + (if s[|s| - 1].0 == order then [s[|s| - 1]] else [])
  }

  /** Inserting after every entry whose ORDER is not larger: the step of a stable sort. */
  function InsertByOrder(sorted: seq<(int, string)>, x: (int, string)): (r: seq<(int, string)>)
    ensures |r| == |sorted| + 1
  {
    if |sorted| == 0 || sorted[|sorted| - 1].0 <= x.0 then sorted + [x]
    else InsertByOrder(sorted[..|sorted| - 1], x) + [sorted[|sorted| - 1]]
  }

  /** list.sort(key=order): Python's sort is stable. */
  function SortByOrder(s: seq<(int, string)>): (r: seq<(int, string)>)
    ensures |r| == |s|
  {
    if |s| == 0 then [] else InsertByOrder(SortByOrder(s[..|s| - 1]), s[|s| - 1])
  }

  lemma {:induction false} WithOrderAppend(a: seq<(int, string)>, b: seq<(int, string)>, order: int)
    ensures WithOrder(a + b, order) == WithOrder(a, order) + WithOrder(b, order)
    decreases |b|
  {
    if |b| == 0 {
      assert a + b == a;
    } else {
      assert (a + b)[..|a + b| - 1] == a + b[..|b| - 1];
      WithOrderAppend(a, b[..|b| - 1], order);
    }
  }

  lemma {:induction false} InsertAddsOne(sorted: seq<(int, string)>, x: (int, string))
    ensures multiset(InsertByOrder(sorted, x)) == multiset(sorted) + multiset{x}
    decreases |sorted|
  {
    if |sorted| > 0 && sorted[|sorted| - 1].0 > x.0 {
      var init, last := sorted[..|sorted| - 1], sorted[|sorted| - 1];
      assert sorted == init + [last];
      InsertAddsOne(init, x);
    }
  }

  lemma {:induction false} InsertKeepsSorted(sorted: seq<(int, string)>, x: (int, string))
    requires SortedByOrder(sorted)
    ensures SortedByOrder(InsertByOrder(sorted, x))
    decreases |sorted|
  {
    if |sorted| > 0 && sorted[|sorted| - 1].0 > x.0 {
      var init, last := sorted[..|sorted| - 1], sorted[|sorted| - 1];
      InsertKeepsSorted(init, x);
      var r1 := InsertByOrder(init, x);
      InsertAddsOne(init, x);
      forall i | 0 <= i < |r1| ensures r1[i].0 <= last.0 {
        assert r1[i] in multiset(r1);
        if r1[i] != x {
          assert r1[i] in multiset(init);
          var k :| 0 <= k < |init| && init[k] == r1[i];
          assert sorted[k] == init[k];
        }
      }
    }
  }

  lemma {:induction false} InsertKeepsOrderOfEquals(sorted: seq<(int, string)>, x: (int, string), order: int)
    ensures WithOrder(InsertByOrder(sorted, x), order)
            == WithOrder(sorted, order) + (if x.0 == order then [x] else [])
    decreases |sorted|
  {
    if |sorted| == 0 || sorted[|sorted| - 1].0 <= x.0 {
      WithOrderAppend(sorted, [x], order);
      assert WithOrder([x], order) == (if x.0 == order then [x] else []) by {
        assert [x][..0] == [];
      }
    } else {
      var init, last := sorted[..|sorted| - 1], sorted[|sorted| - 1];
      InsertKeepsOrderOfEquals(init, x, order);
      var r1 := InsertByOrder(init, x);
      WithOrderAppend(r1, [last], order);
      assert [last][..0] == [];
      assert sorted == init + [last];
      WithOrderAppend(init, [last], order);
    }
  }

  /** The listing's order: ascending ORDER, the same entries, equal ORDERs kept in environment order. */
  lemma {:induction false} SortByOrderCorrect(s: seq<(int, string)>)
    ensures SortedByOrder(SortByOrder(s))
    ensures multiset(SortByOrder(s)) == multiset(s)
    ensures forall order :: WithOrder(SortByOrder(s), order) == WithOrder(s, order)
  {
    if |s| > 0 {
      var init, last := s[..|s| - 1], s[|s| - 1];
      SortByOrderCorrect(init);
      InsertKeepsSorted(SortByOrder(init), last);
      InsertAddsOne(SortByOrder(init), last);
      assert s == init + [last];
      forall order ensures WithOrder(SortByOrder(s), order) == WithOrder(s, order) {
        InsertKeepsOrderOfEquals(SortByOrder(init), last, order);
      }
    }
  }

  function Account(e: (int, string)): string
  {
    e.1
  }

  /** get_sorted_newrelic_apikey_accounts: the ACCOUNT parts, verbatim, sorted by ORDER. */
  function SortedAccounts(env: Environment): (r: seq<string>)
  {
    Seqs.Map(Account, SortByOrder(Entries(env)))
  }

  lemma EntriesNext(env: Environment, i: nat)
    requires i < |env|
    ensures Entries(env[..i + 1]) == Entries(env[..i]) + Entry(env[i].0)
  {
    assert env[..i + 1][..i] == env[..i];
  }

  /** The loop of get_sorted_newrelic_apikey_accounts that collects (ORDER, ACCOUNT) pairs. */
  method CollectEntries(env: Environment) returns (info: seq<(int, string)>)
    ensures info == Entries(env)
  {
    info := [];
    var i := 0;
    while i < |env|
      invariant i <= |env|
      invariant info == Entries(env[..i])
    {
      EntriesNext(env, i);
      info := info + Entry(env[i].0);
      i := i + 1;
    }
    assert env[..i] == env;
  }

  /** The closing list comprehension: the account part of each entry, in order. */
  method AccountsOf(info: seq<(int, string)>) returns (accounts: seq<string>)
    ensures accounts == Seqs.Map(Account, info)
  {
    accounts := [];
    var k := 0;
    while k < |info|
      invariant k <= |info| && |accounts| == k
      invariant forall j :: 0 <= j < k ==> accounts[j] == info[j].1
    {
      accounts := accounts + [info[k].1];
      k := k + 1;
    }
  }

  /** get_sorted_newrelic_apikey_accounts: collect, sort stably by ORDER, keep the account parts. */
  method GetSortedAccounts(env: Environment) returns (accounts: seq<string>)
    ensures accounts == SortedAccounts(env)
  {
    var info := CollectEntries(env);
    info := SortByOrder(info);
    accounts := AccountsOf(info);
  }

  /** Every qualifying variable yields one account, and the accounts appear in ascending ORDER. */
  lemma SortedAccountsListing(env: Environment)
    ensures |SortedAccounts(env)| == |Entries(env)|
    ensures multiset(SortByOrder(Entries(env))) == multiset(Entries(env))
    ensures SortedByOrder(SortByOrder(Entries(env)))
    ensures forall k :: 0 <= k < |SortedAccounts(env)| ==> SortedAccounts(env)[k] == SortByOrder(Entries(env))[k].1
  {
    SortByOrderCorrect(Entries(env));
  }
}
