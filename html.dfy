/**
 * `escapeHtml` (app.js:166): three `replaceAll` calls, `&` first, then `<`, then `>`.
 * Proved against a character-by-character reference and against an unescaping inverse.
 */
module Html {
  import opened Text

  /**
   * `s.replaceAll(c, rep)` for a one-character pattern `c`. JavaScript also expands the
   * patterns `$&`, `$$`, `` $` `` and `$'` inside `rep`; this function does not, so it models
   * `replaceAll` only for a replacement without `$`, which holds for the three entities.
   */
  function ReplaceAll(s: string, c: char, rep: string): (r: string)
    ensures c !in rep ==> c !in r
    ensures forall d :: d != c && d !in rep ==> (d in r <==> d in s)
  {
    if s == [] then [] else (if s[0] == c then rep else [s[0]]) + ReplaceAll(s[1..], c, rep)
  }

  /** The function as the source writes it; no angle bracket survives it. */
  function EscapeHtml(s: string): (r: string)
    ensures '<' !in r && '>' !in r
  {
    ReplaceAll(ReplaceAll(ReplaceAll(s, '&', "&amp;"), '<', "&lt;"), '>', "&gt;")
  }

  /** The replacement text of one input character. */
  function Entity(c: char): string
  {
    if c == '&' then "&amp;" else if c == '<' then "&lt;" else if c == '>' then "&gt;" else [c]
  }

  /** Reference definition: each character is replaced by its entity, independently. */
  function EscapeEach(s: string): string
  {
    if s == [] then [] else Entity(s[0]) + EscapeEach(s[1..])
  }

  lemma {:induction false} ReplaceAllAppend(a: string, b: string, c: char, rep: string)
    ensures ReplaceAll(a + b, c, rep) == ReplaceAll(a, c, rep) + ReplaceAll(b, c, rep)
  {
    if a != [] {
      assert (a + b)[0] == a[0];
      assert (a + b)[1..] == a[1..] + b;
      ReplaceAllAppend(a[1..], b, c, rep);
    } else {
      assert a + b == b;
    }
  }

  lemma {:induction false} ReplaceAllAbsent(s: string, c: char, rep: string)
    requires c !in s
    ensures ReplaceAll(s, c, rep) == s
  {
    if s != [] {
      assert s[1..] + [] == s[1..];
      ReplaceAllAbsent(s[1..], c, rep);
    }
  }

  /** Replacing `&` first means the later passes never touch the `&` it produced. */
  lemma EscapeHtmlChar(c: char)
    ensures EscapeHtml([c]) == Entity(c)
  {
    assert [c][0] == c && [c][1..] == [];
    var one := ReplaceAll([c], '&', "&amp;");
    assert one == (if c == '&' then "&amp;" else [c]) + ReplaceAll([], '&', "&amp;");
    var two := ReplaceAll(one, '<', "&lt;");
    if c == '&' {
      ReplaceAllAbsent(one, '<', "&lt;");
      ReplaceAllAbsent(two, '>', "&gt;");
    } else if c == '<' {
      assert two == "&lt;" + ReplaceAll([], '<', "&lt;");
      ReplaceAllAbsent(two, '>', "&gt;");
    } else {
      assert two == [c] + ReplaceAll([], '<', "&lt;");
      assert ReplaceAll(two, '>', "&gt;") == (if c == '>' then "&gt;" else [c]) + ReplaceAll([], '>', "&gt;");
    }
  }

  /** The chain of `replaceAll` calls agrees with the per-character reference. */
  lemma {:induction false} EscapeHtmlIsEscapeEach(s: string)
    ensures EscapeHtml(s) == EscapeEach(s)
  {
    if s != [] {
      var head, tail := [s[0]], s[1..];
      assert s == head + tail;
      var one := ReplaceAll(s, '&', "&amp;");
      ReplaceAllAppend(head, tail, '&', "&amp;");
      var h1, t1 := ReplaceAll(head, '&', "&amp;"), ReplaceAll(tail, '&', "&amp;");
      ReplaceAllAppend(h1, t1, '<', "&lt;");
      var h2, t2 := ReplaceAll(h1, '<', "&lt;"), ReplaceAll(t1, '<', "&lt;");
      ReplaceAllAppend(h2, t2, '>', "&gt;");
      EscapeHtmlChar(s[0]);
      EscapeHtmlIsEscapeEach(tail);
    }
  }

  /** Number of occurrences of `c` in `s`. */
  function Count(s: string, c: char): (n: nat)
    ensures n <= |s|
    ensures n == 0 <==> c !in s
  {
    if s == [] then 0 else (if s[0] == c then 1 else 0) + Count(s[1..], c)
  }

  /** `&` at position `i` of `t` begins one of the three entities escapeHtml emits. */
  predicate StartsEntity(t: string, i: nat)
    requires i <= |t|
  {
    IsPrefix("&amp;", t[i..]) || IsPrefix("&lt;", t[i..]) || IsPrefix("&gt;", t[i..])
  }

  lemma {:induction false} EscapeEachAmpersands(s: string)
    ensures forall i :: 0 <= i < |EscapeEach(s)| && EscapeEach(s)[i] == '&' ==> StartsEntity(EscapeEach(s), i)
  {
    if s != [] {
      var e, rest := Entity(s[0]), EscapeEach(s[1..]);
      var t := e + rest;
      assert t == EscapeEach(s);
      EscapeEachAmpersands(s[1..]);
      forall i | 0 <= i < |t| && t[i] == '&' ensures StartsEntity(t, i) {
        if i < |e| {
          assert s[0] in "&<>" && i == 0;
          assert t[..|e|] == e;
        } else {
          assert t[i..] == rest[i - |e|..];
          assert rest[i - |e|] == '&';
        }
      }
    }
  }

  /** Every `&` in the output starts `&amp;`, `&lt;` or `&gt;`. */
  lemma EscapeHtmlAmpersands(s: string)
    ensures forall i :: 0 <= i < |EscapeHtml(s)| && EscapeHtml(s)[i] == '&' ==> StartsEntity(EscapeHtml(s), i)
  {
    EscapeHtmlIsEscapeEach(s);
    EscapeEachAmpersands(s);
  }

  lemma {:induction false} EscapeEachLength(s: string)
    ensures |EscapeEach(s)| == |s| + 4 * Count(s, '&') + 3 * Count(s, '<') + 3 * Count(s, '>')
  {
    if s != [] {
      EscapeEachLength(s[1..]);
    }
  }

  /** Each `&` grows the text by 4 characters, each `<` or `>` by 3. */
  lemma EscapeHtmlLength(s: string)
    ensures |EscapeHtml(s)| == |s| + 4 * Count(s, '&') + 3 * Count(s, '<') + 3 * Count(s, '>')
  {
    EscapeHtmlIsEscapeEach(s);
    EscapeEachLength(s);
  }

  /** `escapeHtml` leaves its input unchanged exactly when it holds no `&`, `<` or `>`. */
  lemma EscapeHtmlIdentity(s: string)
    ensures EscapeHtml(s) == s <==> ('&' !in s && '<' !in s && '>' !in s)
  {
    EscapeHtmlLength(s);
    if '&' !in s && '<' !in s && '>' !in s {
      ReplaceAllAbsent(s, '&', "&amp;");
      ReplaceAllAbsent(s, '<', "&lt;");
      ReplaceAllAbsent(s, '>', "&gt;");
    }
  }

  /** A leading `&` is always escaped, even when it already begins an entity. */
  lemma EscapeHtmlAmpersandFirst(t: string)
    ensures EscapeHtml("&" + t) == "&amp;" + EscapeHtml(t)
  {
    var s := "&" + t;
    assert s[0] == '&' && s[1..] == t;
    EscapeHtmlIsEscapeEach(s);
    EscapeHtmlIsEscapeEach(t);
  }

  /**
   * Text that is already escaped is escaped again: an entity such as `&lt;` (here `&` followed
   * by `lt;`) comes out as `&amp;lt;`, so escaping is not idempotent.
   */
  lemma EscapeHtmlOfEntity(t: string)
    requires '&' !in t && '<' !in t && '>' !in t
    ensures EscapeHtml("&" + t) == "&amp;" + t
    ensures EscapeHtml("&" + t) != "&" + t
  {
    EscapeHtmlIdentity(t);
    EscapeHtmlAmpersandFirst(t);
    assert ("&amp;" + t)[1] == 'a';
    assert ("&" + t) != "&amp;" + t by {
      if |t| >= 1 {
        assert ("&" + t)[1] == t[0];
      }
    }
  }

  /** Inverse of escaping: the three entities are turned back into their characters. */
  function Unescape(t: string): string
    decreases |t|
  {
    if t == [] then []
    else if IsPrefix("&amp;", t) then "&" + Unescape(t[5..])
    else if IsPrefix("&lt;", t) then "<" + Unescape(t[4..])
    else if IsPrefix("&gt;", t) then ">" + Unescape(t[4..])
    else [t[0]] + Unescape(t[1..])
  }

  lemma {:induction false} UnescapeEscapeEach(s: string)
    ensures Unescape(EscapeEach(s)) == s
  {
    if s != [] {
      UnescapeEscapeEach(s[1..]);
      UnescapeEntity(s[0], EscapeEach(s[1..]));
      assert [s[0]] + s[1..] == s;
    }
  }

  lemma PrefixOfConcat(e: string, rest: string)
    ensures IsPrefix(e, e + rest) && (e + rest)[|e|..] == rest
  {
    assert (e + rest)[..|e|] == e;
  }

  lemma UnescapeAmp(rest: string)
    ensures Unescape("&amp;" + rest) == "&" + Unescape(rest)
  {
    PrefixOfConcat("&amp;", rest);
  }

  lemma UnescapeLt(rest: string)
    ensures Unescape("&lt;" + rest) == "<" + Unescape(rest)
  {
    var t := "&lt;" + rest;
    PrefixOfConcat("&lt;", rest);
    assert t[1] == 'l';
  }

  lemma UnescapeGt(rest: string)
    ensures Unescape("&gt;" + rest) == ">" + Unescape(rest)
  {
    var t := "&gt;" + rest;
    PrefixOfConcat("&gt;", rest);
    assert t[1] == 'g';
  }

  /** Unescaping reads one entity, or one plain character, back as the character it stands for. */
  lemma UnescapeEntity(c: char, rest: string)
    ensures Unescape(Entity(c) + rest) == [c] + Unescape(rest)
  {
    if c == '&' {
      UnescapeAmp(rest);
    } else if c == '<' {
      UnescapeLt(rest);
    } else if c == '>' {
      UnescapeGt(rest);
    } else {
      var t := [c] + rest;
      assert t[0] == c && t[1..] == rest;
    }
  }

  lemma EscapeHtmlRoundTrip(s: string)
    ensures Unescape(EscapeHtml(s)) == s
  {
    EscapeHtmlIsEscapeEach(s);
    UnescapeEscapeEach(s);
  }
}
