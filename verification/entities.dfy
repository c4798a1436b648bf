/**
 * The only text normalisation of `Engine.getData`: three chained
 * `str.replace` calls, `&amp;` first, then `&gt;`, then `&lt;`.
 */
module Entities {
  import opened Text

  /** Decodes the three entities in the order the engine applies them. */
  function DecodeEntities(s: string): (r: string)
    ensures |r| <= |s|
  {
    ReplaceAll(ReplaceAll(ReplaceAll(s, "&amp;", "&"), "&gt;", ">"), "&lt;", "<")
  }

  /** A text without `&` is passed through unchanged. */
  lemma DecodeWithoutAmpersand(s: string)
    requires forall i :: 0 <= i < |s| ==> s[i] != '&'
    ensures DecodeEntities(s) == s
  {
    NoAmpersandNoEntity(s, "&amp;");
    ReplaceAllAbsent(s, "&amp;", "&");
    NoAmpersandNoEntity(s, "&gt;");
    ReplaceAllAbsent(s, "&gt;", ">");
    NoAmpersandNoEntity(s, "&lt;");
    ReplaceAllAbsent(s, "&lt;", "<");
  }

  /** A text without `&` contains no entity. */
  lemma NoAmpersandNoEntity(s: string, pat: string)
    requires |pat| > 0 && pat[0] == '&'
    requires forall i :: 0 <= i < |s| ==> s[i] != '&'
    ensures !Contains(s, pat)
  {
    forall k: nat | OccursAt(s, pat, k)
      ensures false
    {
    }
  }

  /**
   * The exporter's escaping of one character `c` as the entity `ent`
   * (Slack writes `&` as `&amp;`, `<` as `&lt;`, `>` as `&gt;`).
   */
  function EscapeChar(s: string, c: char, ent: string): string
  {
    if |s| == 0 then "" else (if s[0] == c then ent else [s[0]]) + EscapeChar(s[1..], c, ent)
  }

  /**
   * Replacing an entity that starts with the escaped character undoes the
   * escaping exactly: the `&amp;` step recovers every `&` of the original text.
   */
  lemma {:induction false} ReplaceUndoesEscape(s: string, c: char, ent: string)
    requires |ent| > 0 && ent[0] == c
    ensures ReplaceAll(EscapeChar(s, c, ent), ent, [c]) == s
    decreases |s|
  {
    if |s| > 0 {
      var rest := EscapeChar(s[1..], c, ent);
      ReplaceUndoesEscape(s[1..], c, ent);
      if s[0] == c {
        assert (ent + rest)[..|ent|] == ent;
        assert (ent + rest)[|ent|..] == rest;
      } else {
        var e := [s[0]] + rest;
        if |e| >= |ent| {
          assert e[..|ent|][0] != ent[0];
          assert e[1..] == rest;
        } else {
          assert rest == s[1..];
        }
      }
    }
  }

  /** The order is observable: `&amp;gt;` decodes to `>`, not to `&gt;`. */
  lemma AmpersandFirstDecodesTwice()
    ensures DecodeEntities("&amp;gt;") == ">"
  {
  }

  /** The `&amp;` step of the worked example: only the leading `&amp;` is replaced. */
  lemma DecodeRunAmp()
    ensures ReplaceAll("a " + "&amp;&gt;&lt;" + " b", "&amp;", "&") == "a " + "&&gt;&lt;" + " b"
  {
    var p, q := "&amp;", "&";
    calc {
      ReplaceAll("a " + "&amp;&gt;&lt;" + " b", p, q);
      { assert "a " + "&amp;&gt;&lt;" + " b" == "a " + (p + ("&gt;&lt;" + " b"));
        ReplaceAllFreePrefix("a ", p + ("&gt;&lt;" + " b"), p, q); }
      "a " + ReplaceAll(p + ("&gt;&lt;" + " b"), p, q);
      { ReplaceAllLeadingMatch("&gt;&lt;" + " b", p, q); }
      "a " + (q + ReplaceAll("&gt;&lt;" + " b", p, q));
      { assert "&gt;&lt;" + " b" == [('&')] + ("gt;" + ("&lt;" + " b"));
        ReplaceAllSkip('&', "gt;" + ("&lt;" + " b"), p, q); }
      "a " + (q + ([('&')] + ReplaceAll("gt;" + ("&lt;" + " b"), p, q)));
      { ReplaceAllFreePrefix("gt;", "&lt;" + " b", p, q); }
      "a " + (q + ([('&')] + ("gt;" + ReplaceAll("&lt;" + " b", p, q))));
      { assert "&lt;" + " b" == [('&')] + ("lt;" + " b");
        ReplaceAllSkip('&', "lt;" + " b", p, q); }
      "a " + (q + ([('&')] + ("gt;" + ([('&')] + ReplaceAll("lt;" + " b", p, q)))));
      { ReplaceAllFreePrefix("lt;", " b", p, q);
        NoAmpersandNoEntity(" b", p);
        ReplaceAllAbsent(" b", p, q); }
      "a " + (q + ([('&')] + ("gt;" + ([('&')] + ("lt;" + " b")))));
      "a " + "&&gt;&lt;" + " b";
    }
  }

  /** The `&gt;` step of the worked example, over the output of the `&amp;` step. */
  lemma DecodeRunGt()
    ensures ReplaceAll("a " + "&&gt;&lt;" + " b", "&gt;", ">") == "a " + "&>&lt;" + " b"
  {
    var p, q := "&gt;", ">";
    calc {
      ReplaceAll("a " + "&&gt;&lt;" + " b", p, q);
      { assert "a " + "&&gt;&lt;" + " b" == "a " + ([('&')] + (p + ("&lt;" + " b")));
        ReplaceAllFreePrefix("a ", [('&')] + (p + ("&lt;" + " b")), p, q); }
      "a " + ReplaceAll([('&')] + (p + ("&lt;" + " b")), p, q);
      { ReplaceAllSkip('&', p + ("&lt;" + " b"), p, q); }
      "a " + ([('&')] + ReplaceAll(p + ("&lt;" + " b"), p, q));
      { ReplaceAllLeadingMatch("&lt;" + " b", p, q); }
      "a " + ([('&')] + (q + ReplaceAll("&lt;" + " b", p, q)));
      { assert "&lt;" + " b" == [('&')] + ("lt;" + " b");
        ReplaceAllSkip('&', "lt;" + " b", p, q); }
      "a " + ([('&')] + (q + ([('&')] + ReplaceAll("lt;" + " b", p, q))));
      { ReplaceAllFreePrefix("lt;", " b", p, q);
        NoAmpersandNoEntity(" b", p);
        ReplaceAllAbsent(" b", p, q); }
      "a " + ([('&')] + (q + ([('&')] + ("lt;" + " b"))));
      "a " + "&>&lt;" + " b";
    }
  }

  /** The `&lt;` step of the worked example, over the output of the `&gt;` step. */
  lemma DecodeRunLt()
    ensures ReplaceAll("a " + "&>&lt;" + " b", "&lt;", "<") == "a " + "&><" + " b"
  {
    var p, q := "&lt;", "<";
    calc {
      ReplaceAll("a " + "&>&lt;" + " b", p, q);
      { assert "a " + "&>&lt;" + " b" == "a " + ([('&')] + (">" + (p + " b")));
        ReplaceAllFreePrefix("a ", [('&')] + (">" + (p + " b")), p, q); }
      "a " + ReplaceAll([('&')] + (">" + (p + " b")), p, q);
      { ReplaceAllSkip('&', ">" + (p + " b"), p, q); }
      "a " + ([('&')] + ReplaceAll(">" + (p + " b"), p, q));
      { ReplaceAllFreePrefix(">", p + " b", p, q); }
      "a " + ([('&')] + (">" + ReplaceAll(p + " b", p, q)));
      { ReplaceAllLeadingMatch(" b", p, q);
        NoAmpersandNoEntity(" b", p);
        ReplaceAllAbsent(" b", p, q); }
      "a " + ([('&')] + (">" + (q + " b")));
      "a " + "&><" + " b";
    }
  }

  /** The worked example: `a &amp;&gt;&lt; b` decodes to `a &>< b`. */
  lemma DecodesEachEntity()
    ensures DecodeEntities("a " + "&amp;&gt;&lt;" + " b") == "a " + "&><" + " b"
  {
    DecodeRunAmp();
    DecodeRunGt();
    DecodeRunLt();
  }
}
