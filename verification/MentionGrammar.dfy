/** The token matcher against the grammar of the token pattern, for every text. */
module MentionGrammar {
  import opened Prelude
  import opened MentionText
  import opened MentionRoundTrip

  // ------------------------------------------------------------ the value part

  /** A quoted value: a quote, a body with every quote in it escaped, and a quote. */
  predicate QuotedAt(r: string, n: nat) {
    2 <= n <= |r| && r[0] == '"' && r[n - 1] == '"' && IsQuotedBody(r[1..n - 1])
  }

  /** A run of characters without whitespace, as long as it can be. */
  predicate RunAt(r: string, n: nat) {
    && 0 < n <= |r| && (forall i :: 0 <= i < n ==> !IsSpace(r[i]))
    && (n < |r| ==> IsSpace(r[n]))
  }

  lemma {:induction false} RunIsLongest(r: string, n: nat)
    ensures RunAt(r, n) <==> n == RunLength(r) && n > 0
  {
    if r != "" && !IsSpace(r[0]) && n > 0 {
      if n == 1 {
        assert RunLength(r[1..]) == 0 <==> r[1..] == "" || IsSpace(r[1..][0]);
      } else {
        RunIsLongest(r[1..], n - 1);
        assert forall i :: 0 < i < |r| ==> r[i] == r[1..][i - 1];
        assert RunAt(r, n) ==> RunAt(r[1..], n - 1) by {
          assert forall i :: 0 <= i < |r[1..]| ==> r[1..][i] == r[i + 1];
        }
      }
    }
  }

  lemma QuotedIsBody(r: string, n: nat)
    ensures QuotedAt(r, n) <==> n >= 2 && r != "" && r[0] == '"' && BodyLength(r[1..]) == Some(n - 2)
  {
    if n >= 2 && r != "" {
      BodyIsUnique(r[1..], n - 2);
      if n <= |r| {
        assert r[1..][..n - 2] == r[1..n - 1];
      }
    }
  }

  lemma QuotedIsOnly(r: string, n: nat, k: nat)
    requires QuotedAt(r, n) && QuotedAt(r, k)
    ensures n == k
  {
    QuotedIsBody(r, n);
    QuotedIsBody(r, k);
  }

  /** A value is read as quoted if it can be, and else as the longest run; an unclosed quote is part of the run. */
  lemma {:induction false} ValueIsGrammar(r: string, n: nat, value: string)
    ensures ValueAt(r) == Some((n, value)) <==>
            || (QuotedAt(r, n) && value == Unquote(r[1..n - 1]))
            || (RunAt(r, n) && value == r[..n] && !exists k: nat :: QuotedAt(r, k))
  {
    QuotedIsBody(r, n);
    RunIsLongest(r, n);
    if r != "" && r[0] == '"' && BodyLength(r[1..]).Some? {
      var k := BodyLength(r[1..]).value + 2;
      QuotedIsBody(r, k);
      assert r[1..][..k - 2] == r[1..k - 1];
      assert QuotedAt(r, k);
    } else {
      forall k: nat ensures !QuotedAt(r, k) {
        QuotedIsBody(r, k);
      }
    }
  }

  // ------------------------------------------------------------ unquoting

  /** One unit of a quoted body: an escaped character or a plain one. */
  predicate IsUnit(u: string) {
    || (|u| == 2 && u[0] == '\\' && !IsLineEnd(u[1]))
    || (|u| == 1 && u[0] != '\\' && u[0] != '"')
  }

  /** Unquoting goes unit by unit; a backslash goes where it escapes a quote or a backslash, and stays elsewhere. */
  lemma {:induction false} UnquoteByUnits(u: string, rest: string)
    requires IsUnit(u)
    ensures Unquote(u + rest) ==
            (if |u| == 2 && (u[1] == '"' || u[1] == '\\') then [u[1]] else u) + Unquote(rest)
    ensures IsQuotedBody(u + rest) <==> IsQuotedBody(rest)
    ensures Unquote("") == "" && IsQuotedBody("")
  {
    var body := u + rest;
    if |u| == 1 {
      assert body[1..] == rest && u == [body[0]];
    } else {
      assert body[2..] == rest && u == [body[0], body[1]];
      if !(u[1] == '"' || u[1] == '\\') {
        assert body[1..] == [u[1]] + rest;
        assert (body[1..])[1..] == rest;
        assert Unquote(body) == [body[0]] + Unquote(body[1..]);
        assert Unquote(body[1..]) == [u[1]] + Unquote(rest);
        Regroup([body[0]], [u[1]], Unquote(rest));
        assert [body[0]] + [u[1]] == u;
      }
    }
  }

  /** And every quoted body is made of units. */
  lemma BodyHasUnit(body: string) returns (u: string, rest: string)
    requires IsQuotedBody(body) && body != ""
    ensures IsUnit(u) && body == u + rest && IsQuotedBody(rest)
  {
    var n := if body[0] == '\\' then 2 else 1;
    u, rest := body[..n], body[n..];
  }

  // ------------------------------------------------------------ the whole token

  predicate ValueReads(r: string, n: nat, value: string) {
    ValueAt(r) == Some((n, value))
  }

  lemma {:induction false} KindIsHead(r: string, kinds: seq<string>, kind: string)
    requires ColonFree(kinds)
    ensures KindAt(r, kinds) == Some(kind) <==> kind in kinds && kind + ":" <= r
  {
    if kinds != [] {
      KindIsHead(r, kinds[1..], kind);
      assert kinds == [kinds[0]] + kinds[1..];
      if kinds[0] + ":" <= r && kind + ":" <= r && kind in kinds {
        OnlyOneName(kinds[0], kind, r);
      }
    }
  }

  lemma HeadSplits(r: string, kind: string)
    ensures "@" + kind + ":" <= r <==> r != "" && r[0] == '@' && kind + ":" <= r[1..]
  {
    var head := "@" + kind + ":";
    assert head == "@" + (kind + ":") && head[1..] == kind + ":";
    if |head| <= |r| {
      assert r[..|head|] == [r[0]] + r[1..][..|head| - 1];
      assert head <= r <==> r[..|head|] == head;
      assert kind + ":" <= r[1..] <==> r[1..][..|head| - 1] == kind + ":";
    }
  }

  /** A match is an at-sign, one of the five kinds, a colon, and a value as the grammar reads it. */
  lemma {:induction false} MatchIsGrammar(r: string, n: nat, kind: string, value: string)
    ensures MatchHere(r) == Some(Match(n, kind, value)) <==>
            && kind in ["file", "knowledge", "mcp", "skill", "subagent"] && "@" + kind + ":" <= r && n > |kind| + 2
            && ValueReads(r[|kind| + 2..], n - |kind| - 2, value)
  {
    TypesColonFree();
    HeadSplits(r, kind);
    if r != "" && r[0] == '@' {
      KindIsHead(r[1..], TYPES, kind);
    }
  }

  /** The printer quotes a value exactly if it has whitespace, a quote or a backslash in it. */
  lemma {:induction false} QuotedWhenNeeded(value: string)
    ensures NeedsQuotes(value) <==> exists i :: 0 <= i < |value| && (IsSpace(value[i]) || value[i] in "\"\\")
  {
    if value != "" {
      QuotedWhenNeeded(value[1..]);
      if NeedsQuotes(value[1..]) {
        var i :| 0 <= i < |value[1..]| && (IsSpace(value[1..][i]) || value[1..][i] in "\"\\");
        assert value[i + 1] == value[1..][i];
      }
      assert forall i :: 0 < i < |value| ==> value[i] == value[1..][i - 1];
    }
  }
}
