/**
 Key=value configuration of an agent.

 An agent's argument string is split at white space into tokens; each token
 is split at its first `=` into a key and a value, and stored in a map in
 which a later token overrides an earlier one with the same key. Default
 tokens are put in front of the caller's arguments, so the caller's win.
 */
module Config {
  import opened Options

  /** The characters the stream extraction treats as white space. */
  predicate IsSpace(c: char)
  {
    c == ' ' || c == '\t' || c == '\n' || c == '\r' || c == '\U{0C}' || c == '\U{0B}'
  }

  /** A token as the extraction produces it: non-empty, no white space. */
  predicate IsToken(w: string)
  {
    |w| > 0 && forall j :: 0 <= j < |w| ==> !IsSpace(w[j])
  }

  /** Length of the run of non-space characters at the front of `s`. */
  function RunLength(s: string): (n: nat)
    ensures n <= |s|
    ensures forall j :: 0 <= j < n ==> !IsSpace(s[j])
    ensures n < |s| ==> IsSpace(s[n])
  {
    if s == [] || IsSpace(s[0]) then 0 else 1 + RunLength(s[1..])
  }

  /** The tokens of a string, in order. */
  function Tokens(s: string): (ts: seq<string>)
    ensures forall k :: 0 <= k < |ts| ==> IsToken(ts[k])
    decreases |s|
  {
    if s == [] then []
    else if IsSpace(s[0]) then Tokens(s[1..])
    else
      var n := RunLength(s);
      [s[..n]] + Tokens(s[n..])
  }

  /** Tokens separated by single spaces, each followed by one. */
  function Join(ts: seq<string>): string
  {
    if ts == [] then "" else ts[0] + " " + Join(ts[1..])
  }

  /** Index of the first `=` in `w`, or `|w|` when there is none. */
  function FindEq(w: string): (i: nat)
    ensures i <= |w|
    ensures forall j :: 0 <= j < i ==> w[j] != '='
    ensures i < |w| ==> w[i] == '='
  {
    if w == [] || w[0] == '=' then 0 else 1 + FindEq(w[1..])
  }

  /** The key of a token: everything before its first `=`. */
  function KeyOf(w: string): string
  {
    w[..FindEq(w)]
  }

  /** The value of a token: everything after its first `=`. Without an `=`
      the position past the end wraps to 0 and the value is the whole token. */
  function ValueOf(w: string): string
  {
    var i := FindEq(w);
    if i < |w| then w[i + 1..] else w
  }

  type Meta = map<string, string>

  /** Store one `key=value` message, replacing an earlier value. */
  function Notify(meta: Meta, msg: string): (m: Meta)
    ensures KeyOf(msg) in m && m[KeyOf(msg)] == ValueOf(msg)
    ensures forall k :: k != KeyOf(msg) ==> (k in m <==> k in meta)
    ensures forall k :: k != KeyOf(msg) && k in meta ==> m[k] == meta[k]
  {
    meta[KeyOf(msg) := ValueOf(msg)]
  }

  /** Store the tokens one after the other. */
  function Store(meta: Meta, ts: seq<string>): Meta
    decreases |ts|
  {
    if ts == [] then meta else Store(Notify(meta, ts[0]), ts[1..])
  }

  /** The token `k=v`. */
  function Pair(k: string, v: string): string
  {
    k + "=" + v
  }

  /** The defaults every agent starts from: `name=unknown role=unknown `. */
  const AgentDefaults := Join([Pair("name", "unknown"), Pair("role", "unknown")])

  /** The defaults an agent kind adds in front of its own arguments:
      `name=<name> role=<role> `. */
  function RoleDefaults(name: string, role: string): string
  {
    Join([Pair("name", name), Pair("role", role)])
  }

  /** The learning player's and the dummy player's defaults. */
  const PlayerDefaults := RoleDefaults("dummy", "player")

  /** The random environment's defaults. */
  const EnvironmentDefaults := RoleDefaults("random", "environment")

  /** The configuration an agent builds from its argument string. */
  function Parse(args: string): Meta
  {
    Store(map[], Tokens(AgentDefaults + args))
  }

  /** The property stored under `key`, if any; the source throws otherwise. */
  function Property(meta: Meta, key: string): (r: Option<string>)
    ensures r.Some? <==> key in meta
    ensures r.Some? ==> r.value == meta[key]
  {
    if key in meta then Some(meta[key]) else None
  }

  /** A notified property reads back as the message's value; every other
      property reads as before. */
  lemma PropertyAfterNotify(meta: Meta, msg: string, key: string)
    ensures Property(Notify(meta, msg), key) == if key == KeyOf(msg) then Some(ValueOf(msg)) else Property(meta, key)
  {
  }

  // ---------------------------------------------------------------------
  // Splitting a token

  /** A token with an `=` is its key, the `=` and its value; the key holds no `=`. */
  lemma SplitAtFirstEq(w: string)
    requires '=' in w
    ensures KeyOf(w) + "=" + ValueOf(w) == w
    ensures '=' !in KeyOf(w)
  {
    var i := FindEq(w);
    var j :| 0 <= j < |w| && w[j] == '=';
    assert i <= j;
    assert w == w[..i] + [w[i]] + w[i + 1..];
  }

  /** A token without `=` maps itself to itself. */
  lemma NoEqMapsToItself(w: string)
    requires '=' !in w
    ensures KeyOf(w) == w && ValueOf(w) == w
  {
    assert forall j :: 0 <= j < |w| ==> w[j] != '=';
  }

  // ---------------------------------------------------------------------
  // Tokenising

  lemma {:induction false} RunOfToken(w: string, rest: string)
    requires IsToken(w)
    ensures RunLength(w + " " + rest) == |w|
    decreases |w|
  {
    var s := w + " " + rest;
    if |w| > 1 {
      assert s[1..] == w[1..] + " " + rest;
      RunOfToken(w[1..], rest);
    } else {
      assert s[1..] == " " + rest;
    }
  }

  /** A token followed by a space is read off the front. */
  lemma TokensOfTokenFirst(w: string, rest: string)
    requires IsToken(w)
    ensures Tokens(w + " " + rest) == [w] + Tokens(rest)
  {
    var s := w + " " + rest;
    RunOfToken(w, rest);
    assert s[..|w|] == w;
    assert s[|w|..] == " " + rest;
    assert (" " + rest)[1..] == rest;
  }

  /** Tokenising undoes joining with spaces. */
  lemma {:induction false} TokensOfJoin(ts: seq<string>)
    requires forall k :: 0 <= k < |ts| ==> IsToken(ts[k])
    ensures Tokens(Join(ts)) == ts
  {
    if ts != [] {
      TokensOfTokenFirst(ts[0], Join(ts[1..]));
      TokensOfJoin(ts[1..]);
    }
  }

  /** The extra white space between tokens does not matter. */
  lemma TokensSkipSpace(c: char, s: string)
    requires IsSpace(c)
    ensures Tokens([c] + s) == Tokens(s)
  {
    assert ([c] + s)[1..] == s;
  }

  /** Tokens of defaults followed by arguments: the defaults come first. */
  lemma {:induction false} TokensOfDefaults(defaults: seq<string>, args: string)
    requires forall k :: 0 <= k < |defaults| ==> IsToken(defaults[k])
    ensures Tokens(Join(defaults) + args) == defaults + Tokens(args)
  {
    if defaults == [] {
      assert Join(defaults) + args == args;
    } else {
      var head, tail := defaults[0], defaults[1..];
      var rest := Join(tail) + args;
      assert forall k :: 0 <= k < |tail| ==> tail[k] == defaults[k + 1];
      JoinCons(defaults, args);
      TokensOfTokenFirst(head, rest);
      TokensOfDefaults(tail, args);
      calc {
        Tokens(Join(defaults) + args);
        Tokens(head + " " + rest);
        [head] + Tokens(rest);
        [head] + (tail + Tokens(args));
        { assert defaults == [head] + tail; }
        defaults + Tokens(args);
      }
    }
  }

  lemma JoinCons(ts: seq<string>, args: string)
    requires ts != []
    ensures Join(ts) + args == ts[0] + " " + (Join(ts[1..]) + args)
  {
  }

  // ---------------------------------------------------------------------
  // Storing: the last token for a key wins

  /** Storing a message after a list of tokens is storing the longer list. */
  lemma {:induction false} StoreThenNotify(meta: Meta, ts: seq<string>, msg: string)
    ensures Store(meta, ts + [msg]) == Notify(Store(meta, ts), msg)
    decreases |ts|
  {
    if ts != [] {
      assert (ts + [msg])[1..] == ts[1..] + [msg];
      StoreThenNotify(Notify(meta, ts[0]), ts[1..], msg);
    }
  }

  lemma {:induction false} StoreAppend(meta: Meta, xs: seq<string>, ys: seq<string>)
    ensures Store(meta, xs + ys) == Store(Store(meta, xs), ys)
    decreases |xs|
  {
    if xs == [] {
      assert xs + ys == ys;
    } else {
      assert (xs + ys)[0] == xs[0];
      assert (xs + ys)[1..] == xs[1..] + ys;
      StoreAppend(Notify(meta, xs[0]), xs[1..], ys);
    }
  }

  /** Some token of `ts` has key `k`. */
  predicate HasKey(ts: seq<string>, k: string)
  {
    exists j :: 0 <= j < |ts| && KeyOf(ts[j]) == k
  }

  /** A key is stored exactly when it was there before or some token
      carries it. */
  lemma {:induction false} StorePresence(meta: Meta, ts: seq<string>, k: string)
    ensures k in Store(meta, ts) <==> k in meta || HasKey(ts, k)
    decreases |ts|
  {
    if ts != [] {
      StorePresence(Notify(meta, ts[0]), ts[1..], k);
      if HasKey(ts[1..], k) {
        var j :| 0 <= j < |ts[1..]| && KeyOf(ts[1..][j]) == k;
        assert ts[j + 1] == ts[1..][j];
      }
      if HasKey(ts, k) && KeyOf(ts[0]) != k {
        var j :| 0 <= j < |ts| && KeyOf(ts[j]) == k;
        assert ts[1..][j - 1] == ts[j];
      }
    }
  }

  /** Tokens that do not carry a key leave it as it was. */
  lemma {:induction false} StoreKeeps(meta: Meta, ts: seq<string>, k: string)
    requires forall i :: 0 <= i < |ts| ==> KeyOf(ts[i]) != k
    ensures k in Store(meta, ts) <==> k in meta
    ensures k in meta ==> Store(meta, ts)[k] == meta[k]
    decreases |ts|
  {
    if ts != [] {
      assert forall i :: 0 <= i < |ts[1..]| ==> ts[1..][i] == ts[i + 1];
      StoreKeeps(Notify(meta, ts[0]), ts[1..], k);
    }
  }

  /** The last token carrying a key decides its value. */
  lemma StoreLastValue(meta: Meta, ts: seq<string>, k: string, j: nat)
    requires j < |ts| && KeyOf(ts[j]) == k
    requires forall i :: j < i < |ts| ==> KeyOf(ts[i]) != k
    ensures k in Store(meta, ts) && Store(meta, ts)[k] == ValueOf(ts[j])
  {
    var pre := ts[..j + 1];
    var post := ts[j + 1..];
    assert ts == pre + post;
    StoreAppend(meta, pre, post);
    assert pre == ts[..j] + [ts[j]];
    StoreThenNotify(meta, ts[..j], ts[j]);
    assert forall i :: 0 <= i < |post| ==> post[i] == ts[j + 1 + i];
    StoreKeeps(Store(meta, pre), post, k);
  }

  /** A key is stored exactly when some token carries it (or it was there
      before); its value is that of the last token carrying it, and without
      such a token it keeps its old value. */
  lemma StoreLastWins(meta: Meta, ts: seq<string>, k: string)
    ensures k in Store(meta, ts) <==> k in meta || HasKey(ts, k)
    ensures forall j :: 0 <= j < |ts| && KeyOf(ts[j]) == k &&
                        (forall i :: j < i < |ts| ==> KeyOf(ts[i]) != k) ==>
              Store(meta, ts)[k] == ValueOf(ts[j])
    ensures !HasKey(ts, k) && k in meta ==> Store(meta, ts)[k] == meta[k]
  {
    StorePresence(meta, ts, k);
    forall j | 0 <= j < |ts| && KeyOf(ts[j]) == k && (forall i :: j < i < |ts| ==> KeyOf(ts[i]) != k)
      ensures Store(meta, ts)[k] == ValueOf(ts[j])
    {
      StoreLastValue(meta, ts, k, j);
    }
    if !HasKey(ts, k) {
      StoreKeeps(meta, ts, k);
    }
  }

  lemma {:induction false} FindEqAfterKey(k: string, v: string)
    requires '=' !in k
    ensures FindEq(k + "=" + v) == |k|
  {
    if k != [] {
      assert (k + "=" + v)[1..] == k[1..] + "=" + v;
      assert k[0] in k;
      FindEqAfterKey(k[1..], v);
    }
  }

  predicate NoSpace(v: string)
  {
    forall j :: 0 <= j < |v| ==> !IsSpace(v[j])
  }

  /** A token spelled `k=v` with no `=` in `k` has key `k` and value `v`. */
  lemma KeyValueOf(k: string, v: string)
    requires IsToken(k) && '=' !in k && NoSpace(v)
    ensures IsToken(Pair(k, v))
    ensures KeyOf(Pair(k, v)) == k && ValueOf(Pair(k, v)) == v
  {
    var w := Pair(k, v);
    FindEqAfterKey(k, v);
    assert w[..|k|] == k;
    assert w[|k| + 1..] == v;
    assert forall j :: 0 <= j < |w| ==> w[j] == (if j < |k| then k[j] else if j == |k| then '=' else v[j - |k| - 1]);
  }

  /** Storing two pairs. */
  lemma StoreDefaults(m: Meta, k1: string, v1: string, k2: string, v2: string)
    requires IsToken(k1) && '=' !in k1 && NoSpace(v1)
    requires IsToken(k2) && '=' !in k2 && NoSpace(v2)
    ensures IsToken(Pair(k1, v1)) && IsToken(Pair(k2, v2))
    ensures Store(m, [Pair(k1, v1), Pair(k2, v2)]) == m[k1 := v1][k2 := v2]
  {
    KeyValueOf(k1, v1);
    KeyValueOf(k2, v2);
    var ts := [Pair(k1, v1), Pair(k2, v2)];
    var m1 := Notify(m, ts[0]);
    assert m1 == m[k1 := v1];
    assert Store(m, ts) == Store(m1, ts[1..]);
    var m2 := Notify(m1, ts[1]);
    assert m2 == m1[k2 := v2];
    assert ts[1..][1..] == [];
    assert Store(m1, ts[1..]) == Store(m2, ts[1..][1..]);
  }

  /** Two default pairs in front of the arguments are stored first, so the
      arguments' tokens override them. */
  lemma OverDefaults(m: Meta, k1: string, v1: string, k2: string, v2: string, args: string)
    requires IsToken(k1) && '=' !in k1 && NoSpace(v1)
    requires IsToken(k2) && '=' !in k2 && NoSpace(v2)
    ensures Store(m, Tokens(Join([Pair(k1, v1), Pair(k2, v2)]) + args)) == Store(m[k1 := v1][k2 := v2], Tokens(args))
  {
    var ds := [Pair(k1, v1), Pair(k2, v2)];
    StoreDefaults(m, k1, v1, k2, v2);
    TokensOfDefaults(ds, args);
    StoreAppend(m, ds, Tokens(args));
  }

  /** The words of the defaults. */
  lemma DefaultWords()
    ensures IsToken("name") && '=' !in "name" && IsToken("role") && '=' !in "role"
    ensures NoSpace("unknown") && NoSpace("dummy") && NoSpace("player")
    ensures NoSpace("random") && NoSpace("environment")
  {
  }

  /** An agent's configuration: its arguments stored over the two defaults. */
  lemma ParseOverDefaults(args: string)
    ensures Parse(args) == Store(map["name" := "unknown"]["role" := "unknown"], Tokens(args))
  {
    DefaultWords();
    OverDefaults(map[], "name", "unknown", "role", "unknown", args);
  }

  /** Every agent has a name and a role; they are the defaults unless the
      arguments set them. */
  lemma NameAndRolePresent(args: string)
    ensures "name" in Parse(args) && "role" in Parse(args)
    ensures !HasKey(Tokens(args), "name") ==> Parse(args)["name"] == "unknown"
    ensures !HasKey(Tokens(args), "role") ==> Parse(args)["role"] == "unknown"
  {
    ParseOverDefaults(args);
    var m0 := map["name" := "unknown"]["role" := "unknown"];
    StoreLastWins(m0, Tokens(args), "name");
    StoreLastWins(m0, Tokens(args), "role");
  }

  /** An agent kind's configuration: its arguments stored over its own
      defaults, which override the agent's. */
  lemma RoleParseOverDefaults(name: string, role: string, args: string)
    requires NoSpace(name) && NoSpace(role)
    ensures Parse(RoleDefaults(name, role) + args) == Store(map["name" := name]["role" := role], Tokens(args))
  {
    var m0 := map["name" := "unknown"]["role" := "unknown"];
    ParseOverDefaults(RoleDefaults(name, role) + args);
    DefaultWords();
    OverDefaults(m0, "name", name, "role", role, args);
    OverwriteBoth(m0, "name", name, "role", role);
  }

  /** Setting both keys of a two-key map forgets the old values. */
  lemma OverwriteBoth(m: Meta, k1: string, v1: string, k2: string, v2: string)
    requires m.Keys == {k1, k2}
    ensures m[k1 := v1][k2 := v2] == map[k1 := v1][k2 := v2]
  {
  }

  /** An agent kind's name and role are its own defaults unless the
      arguments set them. */
  lemma RoleNameAndRole(name: string, role: string, args: string)
    requires NoSpace(name) && NoSpace(role)
    ensures var m := Parse(RoleDefaults(name, role) + args);
            && "name" in m && "role" in m
            && (!HasKey(Tokens(args), "name") ==> m["name"] == name)
            && (!HasKey(Tokens(args), "role") ==> m["role"] == role)
  {
    RoleParseOverDefaults(name, role, args);
    var m0 := map["name" := name]["role" := role];
    StoreLastWins(m0, Tokens(args), "name");
    StoreLastWins(m0, Tokens(args), "role");
  }

  /** The name and role properties of every agent can be read: they never
      throw, and they are `unknown` unless the arguments set them. */
  lemma NameAndRoleProperty(args: string)
    ensures Property(Parse(args), "name").Some? && Property(Parse(args), "role").Some?
    ensures !HasKey(Tokens(args), "name") ==> Property(Parse(args), "name") == Some("unknown")
    ensures !HasKey(Tokens(args), "role") ==> Property(Parse(args), "role") == Some("unknown")
  {
    NameAndRolePresent(args);
  }
}
