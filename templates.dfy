/**
  Reply templating: the bot renders every reply with
  `strings.NewReplacer(pairs...).Replace(template)` (internal/bot/bot.go:41-43).
  Go's generic Replacer scans the template once, left to right; at each
  position it tries the keys in argument order, the earliest argument wins,
  the matched key is replaced by its value and scanning resumes after the key.
  Values are never rescanned, so substitution is not recursive.
 */
module Templates {

  import opened Wrappers

  /** The closed set of placeholder keys the bot ever binds. */
  datatype Placeholder = CommandPrefix | UserId | UserName | TaskName

  /** The literal key of a placeholder, as written in the templates. */
  function Key(p: Placeholder): (k: string)
  {
    match p
    case CommandPrefix => "%COMMAND_PREFIX%"
    case UserId => "%USER_ID%"
    case UserName => "%USER_NAME%"
    case TaskName => "%TASK_NAME%"
  }

  /** Every key is a name between two '%' signs, with no '%' inside. */
  lemma KeyShape(p: Placeholder)
    ensures var k := Key(p);
            |k| >= 3 && k[0] == '%' && k[|k| - 1] == '%' && '%' !in k[1..|k| - 1]
  {
  }

  /** The (key, value) argument pairs given to strings.NewReplacer, in argument order. */
  type Bindings = seq<(Placeholder, string)>

  /**
    The index of the first binding whose key starts `s`, or |b| when no
    bound key starts `s`.
   */
  function FirstMatch(b: Bindings, s: string): (i: nat)
    ensures i <= |b|
    ensures i < |b| ==> Key(b[i].0) <= s
    ensures forall j :: 0 <= j < i ==> !(Key(b[j].0) <= s)
  {
    if b == [] then 0
    else if Key(b[0].0) <= s then 0
    else 1 + FirstMatch(b[1..], s)
  }

  /** Replacer.Replace: one non-overlapping, non-recursive left-to-right pass. */
  function Replace(b: Bindings, s: string): (r: string)
    decreases |s|
  {
    if s == [] then []
    else
      var i := FirstMatch(b, s);
      if i < |b| then b[i].1 + Replace(b, s[|Key(b[i].0)|..])
      else [s[0]] + Replace(b, s[1..])
  }

  /** The value bound to `p` by the earliest pair that names it, if any. */
  function Lookup(b: Bindings, p: Placeholder): (v: Option<string>)
    ensures v.Some? <==> exists j :: 0 <= j < |b| && b[j].0 == p
    ensures v.Some? ==> exists j :: 0 <= j < |b| && b[j] == (p, v.value)
  {
    if b == [] then None
    else if b[0].0 == p then Some(b[0].1)
    else
      var v := Lookup(b[1..], p);
      assert v.Some? ==> exists j :: 0 <= j < |b| - 1 && b[1..][j] == (p, v.value);
      v
  }

  /** Appending pairs never overrides an earlier binding: the first pair naming a key wins. */
  lemma {:induction false} LookupConcat(b: Bindings, c: Bindings, p: Placeholder)
    ensures Lookup(b + c, p) == if Lookup(b, p).Some? then Lookup(b, p) else Lookup(c, p)
  {
    if b != [] {
      assert (b + c)[1..] == b[1..] + c;
      LookupConcat(b[1..], c, p);
    } else {
      assert b + c == c;
    }
  }

  /** No key is a prefix of a different key followed by anything: keys never compete. */
  lemma {:induction false} KeyMatchUnique(p: Placeholder, q: Placeholder, s: string)
    requires Key(q) <= Key(p) + s
    ensures q == p
  {
    var t := Key(p) + s;
    assert Key(q)[1] == t[1] && Key(q)[6] == t[6];
  }

  /** At a position holding the key of `p`, the matching binding is the earliest pair naming `p`. */
  lemma {:induction false} FirstMatchAtKey(b: Bindings, p: Placeholder, s: string)
    ensures FirstMatch(b, Key(p) + s) < |b| <==> Lookup(b, p).Some?
    ensures Lookup(b, p).Some? ==>
      var i := FirstMatch(b, Key(p) + s); b[i].0 == p && b[i].1 == Lookup(b, p).value
  {
    if b != [] {
      if b[0].0 == p {
        assert Key(p) <= Key(p) + s;
      } else {
        if Key(b[0].0) <= Key(p) + s {
          KeyMatchUnique(p, b[0].0, s);
        }
        FirstMatchAtKey(b[1..], p, s);
      }
    }
  }

  /** A bound key is replaced by its value exactly once, and the value is not rescanned. */
  lemma ReplaceKey(b: Bindings, p: Placeholder, s: string)
    requires Lookup(b, p).Some?
    ensures Replace(b, Key(p) + s) == Lookup(b, p).value + Replace(b, s)
  {
    FirstMatchAtKey(b, p, s);
    assert (Key(p) + s)[|Key(p)|..] == s;
  }

  /**
    An unbound key is copied through verbatim up to its closing '%', which
    may still open a bound key that follows: the scan resumes one character
    after a failed match, not after the whole unbound key.
   */
  lemma {:induction false} ReplaceUnboundKey(b: Bindings, p: Placeholder, s: string)
    requires Lookup(b, p).None?
    ensures Replace(b, Key(p) + s) == Key(p)[..|Key(p)| - 1] + Replace(b, "%" + s)
  {
    var k := Key(p);
    KeyShape(p);
    var body := k[..|k| - 1];
    assert body + ("%" + s) == k + s;
    FirstMatchAtKey(b, p, s);
    forall j | 0 <= j < |body|
      ensures FirstMatch(b, body[j..] + ("%" + s)) == |b|
    {
      if j == 0 {
        assert body[j..] + ("%" + s) == k + s;
      } else {
        assert body[j..][0] == k[1..|k| - 1][j - 1];
        NoKeyAtNonPercent(b, body[j..] + ("%" + s));
      }
    }
    UnmatchedPrefix(b, body, "%" + s);
  }

  /**
    Text in which no bound key starts at any position is copied through
    unchanged, as long as no bound key starts at any of its positions,
    even when such a key would overrun into what follows.
   */
  lemma {:induction false} UnmatchedPrefix(b: Bindings, t: string, s: string)
    requires forall k :: 0 <= k < |t| ==> FirstMatch(b, t[k..] + s) == |b|
    ensures Replace(b, t + s) == t + Replace(b, s)
  {
    if t != [] {
      var ts := t + s;
      assert t[0..] == t;
      assert FirstMatch(b, ts) == |b|;
      assert ts[1..] == t[1..] + s;
      forall k | 0 <= k < |t[1..]|
        ensures FirstMatch(b, t[1..][k..] + s) == |b|
      {
        assert t[1..][k..] == t[k + 1..];
      }
      UnmatchedPrefix(b, t[1..], s);
      ghost var r := Replace(b, s);
      assert Replace(b, ts) == [t[0]] + (t[1..] + r);
      HeadTail(t, r);
    } else {
      assert t + s == s;
    }
  }

  lemma HeadTail(t: string, r: string)
    requires t != []
    ensures [t[0]] + (t[1..] + r) == t + r
  {
    assert [t[0]] + t[1..] == t;
  }

  /** Literal text without a '%' is copied through unchanged. */
  lemma {:induction false} ReplaceLiteral(b: Bindings, t: string, s: string)
    requires '%' !in t
    ensures Replace(b, t + s) == t + Replace(b, s)
  {
    forall k | 0 <= k < |t|
      ensures FirstMatch(b, t[k..] + s) == |b|
    {
      NoKeyAtNonPercent(b, t[k..] + s);
    }
    UnmatchedPrefix(b, t, s);
  }

  /** Every key starts with '%', so no key starts a text that does not. */
  lemma {:induction false} NoKeyAtNonPercent(b: Bindings, s: string)
    requires s != [] && s[0] != '%'
    ensures FirstMatch(b, s) == |b|
  {
    if b != [] {
      KeyShape(b[0].0);
      NoKeyAtNonPercent(b[1..], s);
    }
  }

  /** A template with no '%' at all is rendered unchanged, whatever the bindings. */
  lemma ReplaceNoPlaceholders(b: Bindings, t: string)
    requires '%' !in t
    ensures Replace(b, t) == t
  {
    ReplaceLiteral(b, t, []);
    assert t + [] == t;
  }

  /** A template that is just an unbound key is rendered unchanged. */
  lemma ReplaceUnboundAlone(b: Bindings, p: Placeholder)
    requires Lookup(b, p).None?
    ensures Replace(b, Key(p)) == Key(p)
  {
    var k := Key(p);
    KeyShape(p);
    ReplaceUnboundKey(b, p, []);
    assert k + [] == k;
    var pct: string := "%";
    assert "%" + [] == pct;
    ReplaceLonePercent(b);
    assert k[..|k| - 1] + pct == k;
  }

  /** A lone '%' is shorter than every key, so it is copied through. */
  lemma ReplaceLonePercent(b: Bindings)
    ensures Replace(b, "%") == "%"
  {
    LonePercentUnmatched(b);
    assert "%"[1..] == [];
  }

  lemma {:induction false} LonePercentUnmatched(b: Bindings)
    ensures FirstMatch(b, "%") == |b|
  {
    if b != [] {
      KeyShape(b[0].0);
      LonePercentUnmatched(b[1..]);
    }
  }

  /** A template with one bound placeholder and no other '%' gets exactly that value in its place. */
  lemma ReplaceOne(b: Bindings, pre: string, p: Placeholder, post: string)
    requires '%' !in pre && '%' !in post
    requires Lookup(b, p).Some?
    ensures Replace(b, pre + Key(p) + post) == pre + Lookup(b, p).value + post
  {
    var rest := Key(p) + post;
    assert pre + Key(p) + post == pre + rest;
    ReplaceLiteral(b, pre, rest);
    ReplaceKeyThenLiteral(b, p, post);
    assert pre + (Lookup(b, p).value + post) == pre + Lookup(b, p).value + post;
  }

  /** A bound key followed by literal text: the value, then the text unchanged. */
  lemma ReplaceKeyThenLiteral(b: Bindings, p: Placeholder, post: string)
    requires '%' !in post
    requires Lookup(b, p).Some?
    ensures Replace(b, Key(p) + post) == Lookup(b, p).value + post
  {
    ReplaceKey(b, p, post);
    ReplaceNoPlaceholders(b, post);
  }

  /** With no bindings at all, every template is rendered unchanged. */
  lemma {:induction false} ReplaceNoBindings(s: string)
    ensures Replace([], s) == s
  {
    if s != [] {
      ReplaceNoBindings(s[1..]);
    }
  }
}
