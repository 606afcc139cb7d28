/**
 * What the agent runner drafts, the approval handler reads back: an e-mail
 * draft parses to a `SEND_EMAIL` action addressed to the recipient found in
 * the inbox item, with the fixed subject and the model's reply as its body.
 */
module DraftRoundTrip {
  import opened Text
  import opened Vault
  import opened AddressPattern
  import opened ApprovalHandler
  import opened AgentRunner

  /** A non-empty text made of the characters an address match can hold. */
  predicate AddressText(s: string) {
    |s| > 0 && forall x :: 0 <= x < |s| ==> IsAddrChar(s[x]) || s[x] == '@'
  }

  /** A reply the approval handler reads back unchanged: it sets no field and opens or closes no section. */
  predicate PlainReply(response: string) {
    HasNonSpace(response)
    && NoFieldLine(response, TO_MARKER) && NoFieldLine(response, SUBJECT_MARKER)
    && !Contains(response, EMAIL_MARKER) && !Contains(response, BODY_MARKER)
    && !Contains(response, POST_MARKER) && !Contains(response, RULE)
  }

  /** The recipient found in an inbox item is always address text. */
  lemma ExtractedAddressIsText(content: string)
    ensures AddressText(ExtractAddress(content))
  {
    ExtractAddressShape(content);
  }

  // ---------------------------------------------------------------------------
  // The draft's parts
  // ---------------------------------------------------------------------------

  /** The field line naming the recipient. */
  function ToLine(to: string): string {
    TO_FIELD + to
  }

  const SUBJECT_LINE := SUBJECT_FIELD + DRAFT_SUBJECT

  /** The action line, a blank line and the body heading. */
  const ACTION_AND_MARKER := ACTION_LINE + "\n" + "\n" + BODY_HEADING

  /** Everything between the recipient's line and the reply. */
  const MIDDLE := SUBJECT_LINE + "\n" + ACTION_AND_MARKER

  /** The lines before the body heading. */
  function Header(to: string): string {
    ToLine(to) + "\n" + SUBJECT_LINE + "\n" + ACTION_LINE + "\n" + "\n"
  }

  /** The rule and the two rename instructions. */
  function Footer(draft: string): string {
    RULE_LINE + "\n" + APPROVE_HINT + draft + "\n" + REJECT_HINT + draft + "\n"
  }

  /** What follows the reply: a blank line, then the footer. */
  function Trailer(draft: string): string {
    "\n" + Footer(draft)
  }

  /** Regrouping the draft's concatenation into its lines, over arbitrary pieces. */
  lemma RegroupLines(tf: string, to: string, sf: string, ds: string, al: string, bh: string,
                     response: string, footer: string)
    ensures tf + to + "\n" + sf + ds + "\n" + al + "\n" + "\n" + bh + "\n" + response + "\n" + "\n" + footer
      == (tf + to) + "\n" + ((sf + ds) + "\n" + (al + "\n" + "\n" + bh)) + "\n" + response + "\n" + ("\n" + footer)
  {
  }

  /** The same concatenation, nested from the right. */
  lemma RegroupNested(tf: string, to: string, sf: string, ds: string, al: string, bh: string,
                      response: string, footer: string)
    ensures tf + to + "\n" + sf + ds + "\n" + al + "\n" + "\n" + bh + "\n" + response + "\n" + "\n" + footer
      == (tf + to) + "\n" + ((sf + ds) + "\n" + ((al + "\n" + "\n" + bh) + "\n" + (response + "\n" + ("\n" + footer))))
  {
  }

  /** The same concatenation, as a header, the heading, the body and the footer. */
  lemma RegroupSection(tf: string, to: string, sf: string, ds: string, al: string, bh: string,
                       response: string, footer: string)
    ensures tf + to + "\n" + sf + ds + "\n" + al + "\n" + "\n" + bh + "\n" + response + "\n" + "\n" + footer
      == ((tf + to) + "\n" + (sf + ds) + "\n" + al + "\n" + "\n") + bh + "\n" + response + "\n\n" + footer
  {
    assert "\n" + "\n" == "\n\n";
  }

  /** The draft ends in its footer. */
  lemma RegroupFooter(to: string, response: string, draft: string)
    ensures RenderEmailDraft(to, response, draft)
      == TO_FIELD + to + "\n" + SUBJECT_FIELD + DRAFT_SUBJECT + "\n" + ACTION_LINE + "\n" + "\n"
         + BODY_HEADING + "\n" + response + "\n" + "\n" + Footer(draft)
  {
    var head := TO_FIELD + to + "\n" + SUBJECT_FIELD + DRAFT_SUBJECT + "\n" + ACTION_LINE + "\n" + "\n"
         + BODY_HEADING + "\n" + response + "\n" + "\n";
    FooterAssoc(head, RULE_LINE, APPROVE_HINT, draft, REJECT_HINT);
  }

  /** Appending the footer's pieces one by one is appending the footer. */
  lemma FooterAssoc(head: string, rl: string, ah: string, draft: string, rh: string)
    ensures head + rl + "\n" + ah + draft + "\n" + rh + draft + "\n"
      == head + (rl + "\n" + ah + draft + "\n" + rh + draft + "\n")
  {
  }

  /** The draft as four parts between line breaks. */
  lemma LayoutByLines(to: string, response: string, draft: string)
    ensures RenderEmailDraft(to, response, draft)
      == ToLine(to) + "\n" + MIDDLE + "\n" + response + "\n" + Trailer(draft)
  {
    RegroupFooter(to, response, draft);
    RegroupLines(TO_FIELD, to, SUBJECT_FIELD, DRAFT_SUBJECT, ACTION_LINE, BODY_HEADING, response, Footer(draft));
  }

  /** The draft as its first two lines and the rest. */
  lemma LayoutNested(to: string, response: string, draft: string)
    ensures RenderEmailDraft(to, response, draft)
      == ToLine(to) + "\n" + (SUBJECT_LINE + "\n" + (ACTION_AND_MARKER + "\n" + (response + "\n" + Trailer(draft))))
  {
    RegroupFooter(to, response, draft);
    RegroupNested(TO_FIELD, to, SUBJECT_FIELD, DRAFT_SUBJECT, ACTION_LINE, BODY_HEADING, response, Footer(draft));
  }

  /** The draft as a body section between the header and the footer. */
  lemma LayoutSection(to: string, response: string, draft: string)
    ensures RenderEmailDraft(to, response, draft)
      == Header(to) + BODY_HEADING + "\n" + response + "\n\n" + Footer(draft)
  {
    RegroupFooter(to, response, draft);
    RegroupSection(TO_FIELD, to, SUBJECT_FIELD, DRAFT_SUBJECT, ACTION_LINE, BODY_HEADING, response, Footer(draft));
  }

  /** The draft's fixed texts are the handler's markers. */
  lemma SharedMarkers()
    ensures BODY_HEADING == BODY_MARKER && RULE_LINE == RULE
    ensures TO_FIELD == TO_MARKER + " " && SUBJECT_FIELD == SUBJECT_MARKER + " "
  {
  }

  /** Characters of the handler's markers that the proofs below look for. */
  lemma MarkerChars()
    ensures EMAIL_MARKER[0] == '#' && EMAIL_MARKER[6] == 'f' && EMAIL_MARKER[24] == 'v'
    ensures POST_MARKER[0] == '#' && POST_MARKER[5] == 's' && POST_MARKER[8] == 'C'
    ensures TO_MARKER[0] == '*' && TO_MARKER[2] == 'T'
    ensures SUBJECT_MARKER[0] == '*' && SUBJECT_MARKER[5] == 'j'
    ensures BODY_MARKER[12] == 'y'
  {
  }

  /** The markers the draft's proofs look for are single-line texts. */
  lemma EmailMarkerOneLine()
    ensures Lacks(EMAIL_MARKER, '\n')
  {
  }

  lemma PostMarkerOneLine()
    ensures Lacks(POST_MARKER, '\n')
  {
  }

  lemma BodyMarkerOneLine()
    ensures Lacks(BODY_MARKER, '\n')
  {
  }

  /** The body marker ends in a character it holds nowhere else, so it cannot overlap itself. */
  lemma BodyMarkerUnbordered()
    ensures Unbordered(BODY_MARKER)
  {
    UnborderedByLastChar(BODY_MARKER);
  }

  /** The two field markers differ at index 2. */
  lemma SubjectMarkerChars()
    ensures |TO_MARKER| > 2 && |SUBJECT_MARKER| > 2 && SUBJECT_MARKER[2] == 'S' && TO_MARKER[2] == 'T'
  {
  }

  // The characters each fixed text of the draft does without.

  lemma SubjectFieldLacks()
    ensures Lacks(SUBJECT_FIELD, 'v') && Lacks(SUBJECT_FIELD, 'C') && Lacks(SUBJECT_FIELD, '\n')
  {
  }

  lemma DraftSubjectLacks()
    ensures Lacks(DRAFT_SUBJECT, 'v') && Lacks(DRAFT_SUBJECT, 'C')
  {
  }

  lemma DraftSubjectOneLine()
    ensures Lacks(DRAFT_SUBJECT, '\n')
  {
  }

  lemma ActionLineLacks()
    ensures Lacks(ACTION_LINE, 'v') && Lacks(ACTION_LINE, 'C') && Lacks(ACTION_LINE, 'T') && Lacks(ACTION_LINE, 'j')
  {
  }

  lemma BodyHeadingLacks()
    ensures Lacks(BODY_HEADING, 'v') && Lacks(BODY_HEADING, 'C') && Lacks(BODY_HEADING, 'T') && Lacks(BODY_HEADING, 'j')
  {
  }

  lemma BreakLacks(c: char)
    requires c != '\n'
    ensures Lacks("\n", c)
  {
  }

  lemma ApproveHintLacks()
    ensures Lacks(APPROVE_HINT, 'f') && Lacks(APPROVE_HINT, 's') && Lacks(APPROVE_HINT, 'y') && Lacks(APPROVE_HINT, '*')
  {
  }

  lemma RejectHintLacks()
    ensures Lacks(REJECT_HINT, 'f') && Lacks(REJECT_HINT, 's') && Lacks(REJECT_HINT, 'y') && Lacks(REJECT_HINT, '*')
  {
  }

  lemma ShortTextsLack(c: char)
    requires c == 'f' || c == 's' || c == 'y' || c == '*'
    ensures Lacks(RULE_LINE, c) && Lacks(DRAFT_PREFIX, c) && Lacks(MD, c)
  {
  }

  lemma ToFieldLacks()
    ensures Lacks(TO_FIELD, '#') && Lacks(TO_FIELD, '\n')
  {
  }

  /** A character none of the pieces holds is absent from the lines between the recipient and the reply. */
  lemma LacksMiddleShape(sf: string, ds: string, al: string, bh: string, c: char)
    requires Lacks(sf, c) && Lacks(ds, c) && Lacks(al, c) && Lacks(bh, c) && Lacks("\n", c)
    ensures Lacks(al + "\n" + "\n" + bh, c)
    ensures Lacks((sf + ds) + "\n" + (al + "\n" + "\n" + bh), c)
  {
    LacksAppend(al, "\n", c);
    LacksAppend(al + "\n", "\n", c);
    LacksAppend(al + "\n" + "\n", bh, c);
    LacksAppend(sf, ds, c);
    LacksAppend(sf + ds, "\n", c);
    LacksAppend((sf + ds) + "\n", al + "\n" + "\n" + bh, c);
  }

  /** A character none of the pieces holds is absent from the footer and from what follows the reply. */
  lemma LacksFooterShape(rl: string, ah: string, prefix: string, ts: string, md: string, rh: string, c: char)
    requires Lacks(rl, c) && Lacks(ah, c) && Lacks(prefix, c) && Lacks(ts, c) && Lacks(md, c) && Lacks(rh, c)
    requires Lacks("\n", c)
    ensures var draft := prefix + ts + md;
      var footer := rl + "\n" + ah + draft + "\n" + rh + draft + "\n";
      Lacks(footer, c) && Lacks("\n" + footer, c)
  {
    var draft := prefix + ts + md;
    LacksAppend(prefix, ts, c);
    LacksAppend(prefix + ts, md, c);
    LacksAppend(rl, "\n", c);
    LacksAppend(rl + "\n", ah, c);
    LacksAppend(rl + "\n" + ah, draft, c);
    LacksAppend(rl + "\n" + ah + draft, "\n", c);
    LacksAppend(rl + "\n" + ah + draft + "\n", rh, c);
    LacksAppend(rl + "\n" + ah + draft + "\n" + rh, draft, c);
    LacksAppend(rl + "\n" + ah + draft + "\n" + rh + draft, "\n", c);
    LacksAppend("\n", rl + "\n" + ah + draft + "\n" + rh + draft + "\n", c);
  }

  /** The characters the fixed lines between the recipient and the reply do without. */
  lemma MiddleLacks()
    ensures Lacks(MIDDLE, 'v') && Lacks(MIDDLE, 'C')
    ensures Lacks(ACTION_AND_MARKER, 'T') && Lacks(ACTION_AND_MARKER, 'j')
    ensures Lacks(SUBJECT_LINE, '\n')
  {
    SubjectFieldLacks();
    DraftSubjectLacks();
    DraftSubjectOneLine();
    ActionLineLacks();
    BodyHeadingLacks();
    LacksAppend(SUBJECT_FIELD, DRAFT_SUBJECT, '\n');
    BreakLacks('v');
    BreakLacks('C');
    BreakLacks('T');
    BreakLacks('j');
    LacksMiddleShape(SUBJECT_FIELD, DRAFT_SUBJECT, ACTION_LINE, BODY_HEADING, 'v');
    LacksMiddleShape(SUBJECT_FIELD, DRAFT_SUBJECT, ACTION_LINE, BODY_HEADING, 'C');
    LacksAppend(ACTION_LINE, "\n", 'T');
    LacksAppend(ACTION_LINE + "\n", "\n", 'T');
    LacksAppend(ACTION_LINE + "\n" + "\n", BODY_HEADING, 'T');
    LacksAppend(ACTION_LINE, "\n", 'j');
    LacksAppend(ACTION_LINE + "\n", "\n", 'j');
    LacksAppend(ACTION_LINE + "\n" + "\n", BODY_HEADING, 'j');
  }

  /** A footer character the draft's fixed texts and a timestamp do without. */
  lemma FooterLacksChar(ts: string, c: char)
    requires StampText(ts)
    requires c == 'f' || c == 's' || c == 'y' || c == '*'
    ensures Lacks(Trailer(DraftName(ts)), c) && Lacks(Footer(DraftName(ts)), c)
  {
    ApproveHintLacks();
    RejectHintLacks();
    ShortTextsLack(c);
    BreakLacks(c);
    assert Lacks(ts, c) by {
      forall i | 0 <= i < |ts|
        ensures ts[i] != c
      {
        assert IsDigit(ts[i]) || ts[i] == '_';
      }
    }
    LacksFooterShape(RULE_LINE, APPROVE_HINT, DRAFT_PREFIX, ts, MD, REJECT_HINT, c);
  }

  /** The characters the footer does without, given a timestamp of digits and underscores. */
  lemma FooterLacks(ts: string)
    requires StampText(ts)
    ensures Lacks(Trailer(DraftName(ts)), 'f') && Lacks(Trailer(DraftName(ts)), 's')
    ensures Lacks(Trailer(DraftName(ts)), '*') && Lacks(Footer(DraftName(ts)), 'y')
  {
    FooterLacksChar(ts, 'f');
    FooterLacksChar(ts, 's');
    FooterLacksChar(ts, 'y');
    FooterLacksChar(ts, '*');
  }

  /** The recipient's line has no `#` and no line break. */
  lemma ToLineLacks(to: string)
    requires AddressText(to)
    ensures Lacks(ToLine(to), '#') && Lacks(ToLine(to), '\n')
  {
    ToFieldLacks();
    LacksAppend(TO_FIELD, to, '#');
    LacksAppend(TO_FIELD, to, '\n');
  }

  // ---------------------------------------------------------------------------
  // Markers
  // ---------------------------------------------------------------------------

  /** A marker absent from every part between line breaks is absent from the draft. */
  lemma AbsentAcrossParts(h: string, m: string, r: string, t: string, p: string)
    requires Lacks(p, '\n') && !Contains(h, p) && !Contains(m, p) && !Contains(r, p) && !Contains(t, p)
    ensures !Contains(h + "\n" + m + "\n" + r + "\n" + t, p)
  {
    LacksNotIn(p, '\n');
    ContainsAcross(h, '\n', m, p);
    ContainsAcross(h + "\n" + m, '\n', r, p);
    ContainsAcross(h + "\n" + m + "\n" + r, '\n', t, p);
  }

  /** The e-mail marker does not occur in a draft. */
  lemma NoEmailMarker(to: string, response: string, ts: string)
    requires AddressText(to) && StampText(ts) && PlainReply(response)
    ensures !Contains(RenderEmailDraft(to, response, DraftName(ts)), EMAIL_MARKER)
  {
    var draft := DraftName(ts);
    LayoutByLines(to, response, draft);
    ToLineLacks(to);
    MiddleLacks();
    FooterLacks(ts);
    MarkerChars();
    LacksMarker(ToLine(to), EMAIL_MARKER, 0);
    LacksMarker(MIDDLE, EMAIL_MARKER, 24);
    LacksMarker(Trailer(draft), EMAIL_MARKER, 6);
    EmailMarkerOneLine();
    AbsentAcrossParts(ToLine(to), MIDDLE, response, Trailer(draft), EMAIL_MARKER);
  }

  /** The post marker does not occur in a draft. */
  lemma NoPostMarker(to: string, response: string, ts: string)
    requires AddressText(to) && StampText(ts) && PlainReply(response)
    ensures !Contains(RenderEmailDraft(to, response, DraftName(ts)), POST_MARKER)
  {
    var draft := DraftName(ts);
    LayoutByLines(to, response, draft);
    ToLineLacks(to);
    MiddleLacks();
    FooterLacks(ts);
    MarkerChars();
    LacksMarker(ToLine(to), POST_MARKER, 0);
    LacksMarker(MIDDLE, POST_MARKER, 8);
    LacksMarker(Trailer(draft), POST_MARKER, 5);
    PostMarkerOneLine();
    AbsentAcrossParts(ToLine(to), MIDDLE, response, Trailer(draft), POST_MARKER);
  }

  /** The body marker occurs in a draft, right after the header. */
  lemma HasBodyMarker(to: string, response: string, draft: string)
    ensures Contains(RenderEmailDraft(to, response, draft), BODY_MARKER)
  {
    LayoutSection(to, response, draft);
    SharedMarkers();
    SecondPieceContained(Header(to), BODY_MARKER, "\n", response, "\n\n", Footer(draft));
  }

  // ---------------------------------------------------------------------------
  // Field lines
  // ---------------------------------------------------------------------------

  /** No line of `lines` starts with `marker`. */
  predicate NoLineStarts(lines: seq<string>, marker: string) {
    forall j :: 0 <= j < |lines| ==> !StartsWith(lines[j], marker)
  }

  /** A line starting with a marker holds the marker's characters, so a text lacking one of them has no such line. */
  lemma NoLineStartsLacking(s: string, marker: string, k: int)
    requires 0 <= k < |marker| && Lacks(s, marker[k])
    ensures NoLineStarts(Split(s, '\n'), marker)
  {
    forall j | 0 <= j < |Split(s, '\n')|
      ensures !StartsWith(Split(s, '\n')[j], marker)
    {
      var line := Split(s, '\n')[j];
      if StartsWith(line, marker) {
        assert line[k] == marker[k];
        SplitPieceChar(s, '\n', j, marker[k]);
      }
    }
  }

  /** The lines of two single lines followed by three texts, over arbitrary pieces. */
  lemma LinesOfParts(h: string, m: string, a: string, r: string, t: string)
    requires Lacks(h, '\n') && Lacks(m, '\n')
    ensures Split(h + "\n" + (m + "\n" + (a + "\n" + (r + "\n" + t))), '\n')
      == [h] + ([m] + (Split(a, '\n') + Split(r, '\n') + Split(t, '\n')))
  {
    LacksNotIn(h, '\n');
    LacksNotIn(m, '\n');
    var tail := a + "\n" + (r + "\n" + t);
    SplitConcat(r, '\n', t);
    SplitConcat(a, '\n', r + "\n" + t);
    SeqAppendAssoc(Split(a, '\n'), Split(r, '\n'), Split(t, '\n'));
    assert Split(tail, '\n') == Split(a, '\n') + Split(r, '\n') + Split(t, '\n');
    SplitAcross(m, '\n', tail);
    SplitAcross(h, '\n', m + "\n" + tail);
  }

  /** The lines of the draft: the recipient's, the subject's, and the lines of the rest. */
  lemma DraftLines(to: string, response: string, ts: string)
    requires AddressText(to) && StampText(ts)
    ensures var draft := DraftName(ts);
      Split(RenderEmailDraft(to, response, draft), '\n')
        == [ToLine(to)] + ([SUBJECT_LINE] + (Split(ACTION_AND_MARKER, '\n') + Split(response, '\n') + Split(Trailer(draft), '\n')))
  {
    var draft := DraftName(ts);
    LayoutNested(to, response, draft);
    ToLineLacks(to);
    MiddleLacks();
    LinesOfParts(ToLine(to), SUBJECT_LINE, ACTION_AND_MARKER, response, Trailer(draft));
  }

  /**
   * With two field lines first and no later line starting with either
   * marker, each of the two is the last line for its marker; over arbitrary
   * markers `p` and `q` that differ at index `k`.
   */
  lemma FirstTwoFieldLines(h: string, m: string, a: seq<string>, b: seq<string>, c: seq<string>,
                           p: string, q: string, k: nat)
    requires StartsWith(h, p) && StartsWith(m, q)
    requires k < |p| && k < |q| && p[k] != q[k]
    requires NoLineStarts(a, p) && NoLineStarts(b, p) && NoLineStarts(c, p)
    requires NoLineStarts(a, q) && NoLineStarts(b, q) && NoLineStarts(c, q)
    ensures var lines := [h] + ([m] + (a + b + c));
      IsLastFieldLine(lines, p, 0) && IsLastFieldLine(lines, q, 1)
  {
    var rest := a + b + c;
    assert NoLineStarts(rest, p) && NoLineStarts(rest, q) by {
      forall j | 0 <= j < |rest|
        ensures !StartsWith(rest[j], p) && !StartsWith(rest[j], q)
      {
        if j < |a| {
          assert rest[j] == a[j];
        } else if j < |a| + |b| {
          assert rest[j] == b[j - |a|];
        } else {
          assert rest[j] == c[j - |a| - |b|];
        }
      }
    }
    var lines := [h] + ([m] + rest);
    assert m[k] == q[k];
    assert !StartsWith(m, p);
    assert forall j :: 2 <= j < |lines| ==> lines[j] == rest[j - 2];
  }

  /** The recipient's line is the last `**To:**` line and the subject line the last `**Subject:**` line. */
  lemma DraftFieldLines(to: string, response: string, ts: string)
    requires AddressText(to) && StampText(ts) && PlainReply(response)
    ensures var lines := Split(RenderEmailDraft(to, response, DraftName(ts)), '\n');
      IsLastFieldLine(lines, TO_MARKER, 0) && lines[0] == ToLine(to)
      && IsLastFieldLine(lines, SUBJECT_MARKER, 1) && lines[1] == SUBJECT_LINE
  {
    var draft := DraftName(ts);
    DraftLines(to, response, ts);
    MiddleLacks();
    FooterLacks(ts);
    MarkerChars();
    NoLineStartsLacking(ACTION_AND_MARKER, TO_MARKER, 2);
    NoLineStartsLacking(ACTION_AND_MARKER, SUBJECT_MARKER, 5);
    NoLineStartsLacking(Trailer(draft), TO_MARKER, 0);
    NoLineStartsLacking(Trailer(draft), SUBJECT_MARKER, 0);
    SharedMarkers();
    StartsWithFirst(TO_MARKER, " ", to);
    StartsWithFirst(SUBJECT_MARKER, " ", DRAFT_SUBJECT);
    SubjectMarkerChars();
    FirstTwoFieldLines(ToLine(to), SUBJECT_LINE, Split(ACTION_AND_MARKER, '\n'), Split(response, '\n'),
                       Split(Trailer(draft), '\n'), TO_MARKER, SUBJECT_MARKER, 2);
  }

  /** A field line written as the marker, a space and a trimmed value gives that value back. */
  lemma FieldOfLine(marker: string, v: string)
    requires marker != [] && !Contains(" " + v, marker) && Trimmed(v)
    ensures FieldValue(marker + " " + v, marker) == v
  {
    assert marker + " " + v == marker + (" " + v);
    ReplaceLeadingMarker(marker, " " + v, "");
    assert "" + (" " + v) == " " + v + "";
    StripPadded(" ", v, "");
    StripTrimmed(v);
  }

  /** The fixed subject has no surrounding whitespace and no `*`. */
  lemma DraftSubjectPlain()
    ensures Trimmed(DRAFT_SUBJECT) && Lacks(DRAFT_SUBJECT, '*')
  {
  }

  /** The field values the handler reads from the two lines. */
  lemma DraftFieldValues(to: string)
    requires AddressText(to)
    ensures FieldValue(ToLine(to), TO_MARKER) == to
    ensures FieldValue(SUBJECT_LINE, SUBJECT_MARKER) == DRAFT_SUBJECT
  {
    SharedMarkers();
    MarkerChars();
    assert Trimmed(to) by {
      assert IsAddrChar(to[0]) || to[0] == '@';
      assert IsAddrChar(to[|to| - 1]) || to[|to| - 1] == '@';
    }
    assert Lacks(to, '*') by {
      forall x | 0 <= x < |to|
        ensures to[x] != '*'
      {
        assert IsAddrChar(to[x]) || to[x] == '@';
      }
    }
    LacksAppend(" ", to, '*');
    LacksMarker(" " + to, TO_MARKER, 0);
    FieldOfLine(TO_MARKER, to);
    DraftSubjectPlain();
    LacksAppend(" ", DRAFT_SUBJECT, '*');
    LacksMarker(" " + DRAFT_SUBJECT, SUBJECT_MARKER, 0);
    FieldOfLine(SUBJECT_MARKER, DRAFT_SUBJECT);
  }

  // ---------------------------------------------------------------------------
  // The round trip
  // ---------------------------------------------------------------------------

  /** The body the handler extracts from the draft is the reply, stripped. */
  lemma DraftBody(to: string, response: string, ts: string)
    requires AddressText(to) && StampText(ts) && PlainReply(response)
    ensures Extract(RenderEmailDraft(to, response, DraftName(ts)), BODY_MARKER) == Strip(response)
  {
    var draft := DraftName(ts);
    LayoutSection(to, response, draft);
    SharedMarkers();
    FooterLacks(ts);
    BodyMarkerUnbordered();
    BodyMarkerOneLine();
    MarkerChars();
    LacksMarker(Footer(draft), BODY_MARKER, 12);
    assert StartsWith(Footer(draft), RULE);
    ExtractSection(Header(to), BODY_MARKER, response, Footer(draft));
  }

  /**
   * `parse_action_file` on the draft `run` writes gives back a `SEND_EMAIL`
   * action to the recipient, with the fixed subject and the stripped reply.
   */
  lemma EmailDraftRoundTrip(to: string, response: string, ts: string)
    requires AddressText(to) && StampText(ts) && PlainReply(response)
    ensures var content := RenderEmailDraft(to, response, DraftName(ts));
      Parse(content) == Action(SEND_EMAIL, to, DRAFT_SUBJECT, Strip(response), "", content)
  {
    var content := RenderEmailDraft(to, response, DraftName(ts));
    var lines := Split(content, '\n');
    NoEmailMarker(to, response, ts);
    NoPostMarker(to, response, ts);
    HasBodyMarker(to, response, DraftName(ts));
    DraftFieldLines(to, response, ts);
    DraftFieldValues(to);
    ParseToLastWins(content, 0);
    ParseSubjectLastWins(content, 1);
    DraftBody(to, response, ts);
    ParseBody(content);
    ParsePost(content);
  }

  /** Approving an e-mail draft sends the stripped reply, with the fixed subject, to its recipient. */
  lemma ApprovedDraftExecutes(to: string, response: string, ts: string, password: string, delivered: bool)
    requires AddressText(to) && StampText(ts) && PlainReply(response)
    ensures HandlerExecutor(password)(RenderEmailDraft(to, response, DraftName(ts)), delivered)
      == SendEmail(password, to, DRAFT_SUBJECT, Strip(response), delivered)
  {
    EmailDraftRoundTrip(to, response, ts);
  }

  /**
   * End to end: when `run` turns an e-mail request into a draft and the
   * draft is approved, the handler sends the stripped reply, with the fixed
   * subject, to the address found in the request.
   */
  lemma ApprovedDraftSends(t: Tree, src: Folder, name: string, cli: CliResult, ts: string, now: int,
                           password: string, delivered: bool)
    requires ItemFolder(src) && IsFile(t, src, name)
    requires !Blank(Files(t, src)[name].content) && IsEmailRequest(Files(t, src)[name].content)
    requires StampText(ts) && PlainReply(CallQwen(cli))
    ensures var p := Process(t, src, name, cli, ts, now);
      && IsFile(p.tree, ApprovalRequired, DraftName(ts))
      && HandlerExecutor(password)(Files(p.tree, ApprovalRequired)[DraftName(ts)].content, delivered)
         == SendEmail(password, ExtractAddress(Files(t, src)[name].content), DRAFT_SUBJECT, Strip(CallQwen(cli)), delivered)
  {
    RunDraftsEmail(t, src, name, cli, ts, now);
    ExtractedAddressIsText(Files(t, src)[name].content);
    ApprovedDraftExecutes(ExtractAddress(Files(t, src)[name].content), CallQwen(cli), ts, password, delivered);
  }
}
