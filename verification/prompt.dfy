/** The company context and the system prompt of the chat backend
    (backend/main.py): the context is the scraped text file when it exists and a
    fixed placeholder otherwise, and it is placed into a fixed instruction
    template that also tells the model to emit the contact marker. */
module Prompt {
  import opened Wrappers
  import opened Strings

  /** The marker the model is told to emit when the user wants to be put in touch. */
  const ContactToken: string := "[CONTACT_PAGE]"

  /** The context used when the scraped file is missing. */
  const PlaceholderInfo: string := "Tars Group is a technology company. (Default placeholder)"

  /** The template text before the company context. */
  const Preamble: string :=
    "\nYou are Ava, the AI assistant for Tars Group.\n"
    + "Your persona is professional, helpful, and efficient, similar to TARS from Interstellar but warmer.\n"
    + "You are here to help users understand Tars Group's services and offerings.\n"
    + "\n"
    + "Context about Tars Group:\n"

  /** The guidelines up to the first mention of the marker. */
  const GuidelinesHead: string :=
    "\n\nGuidelines:\n"
    + "1. Answer questions based on the context provided.\n"
    + "2. If you don't know the answer, politely say so and offer to connect them with support.\n"
    + "3. If the user expresses an intent to contact support, sales, or get in touch, provide a helpful response AND set the 'action' flag to 'contact_support' in your internal reasoning (though here you just output text, we will handle the flag logic separately or you can explicitly say \""

  /** The guidelines between the two mentions of the marker. */
  const GuidelinesMiddle: string :=
    "\" to trigger it).\n"
    + "4. Be concise.\n"
    + "\n"
    + "Special Instruction for Contact:\n"
    + "If the user asks to contact someone, output the token "

  const GuidelinesTail: string := " at the end of your message.\n"

  /** The template text after the company context. */
  function Guidelines(): (text: string)
  {
    GuidelinesHead + ContactToken + GuidelinesMiddle + ContactToken + GuidelinesTail
  }

  /** `COMPANY_INFO`: the contents of the context file, or the placeholder when
      the file is not found (`None`). */
  function CompanyInfo(file: Option<string>): (info: string)
    ensures file.Some? ==> info == file.value
    ensures file.None? ==> info == PlaceholderInfo
    ensures info == [] <==> file == Some([])
  {
    match file
    case Some(contents) => contents
    case None => PlaceholderInfo
  }

  /** `SYSTEM_PROMPT`: the template with the company context substituted. */
  function SystemPrompt(companyInfo: string): (prompt: string)
    ensures StartsWith(prompt, Preamble)
    ensures |companyInfo| < |prompt|
    ensures |Preamble| + |companyInfo| <= |prompt| && prompt[|Preamble| + |companyInfo|..] == Guidelines()
  {
    PrefixOfConcatenation(Preamble, companyInfo, Guidelines());
    Preamble + companyInfo + Guidelines()
  }

  /** `a` is a prefix of `a + b + c` and `c` the suffix after `a + b`; a
      non-empty `c` makes the whole longer than `b`. */
  lemma PrefixOfConcatenation(a: string, b: string, c: string)
    ensures StartsWith(a + b + c, a)
    ensures |c| > 0 ==> |b| < |a + b + c|
    ensures (a + b + c)[|a| + |b|..] == c
  {
    assert (a + b + c)[..|a|] == a;
  }

  /** The system prompt built at startup embeds the context file's contents when
      the file exists and the placeholder otherwise. */
  lemma StartupPromptEmbedsContext(file: Option<string>)
    ensures file.Some? ==> Contains(SystemPrompt(CompanyInfo(file)), file.value)
    ensures file.None? ==> Contains(SystemPrompt(CompanyInfo(file)), PlaceholderInfo)
  {
    SystemPromptContainsInfo(CompanyInfo(file));
  }

  /** A string placed between two others occurs right after the first. */
  lemma OccursBetween(a: string, pat: string, b: string)
    ensures OccursAt(a + pat + b, pat, |a|)
  {
    assert (a + pat + b)[|a|..|a| + |pat|] == pat;
  }

  /** The context is a substring of the prompt, and it sits right after the
      fixed preamble. */
  lemma SystemPromptContainsInfo(companyInfo: string)
    ensures OccursAt(SystemPrompt(companyInfo), companyInfo, |Preamble|)
    ensures Contains(SystemPrompt(companyInfo), companyInfo)
  {
    OccursBetween(Preamble, companyInfo, Guidelines());
    OccurrenceContains(SystemPrompt(companyInfo), companyInfo, |Preamble|);
  }

  lemma RegroupTail(a: string, b: string, c: string, d: string, e: string)
    ensures a + b + c + d + e == a + b + (c + d + e)
  {
  }

  /** The guidelines mention the marker. */
  lemma GuidelinesMentionToken()
    ensures Contains(Guidelines(), ContactToken)
  {
    var after := GuidelinesMiddle + ContactToken + GuidelinesTail;
    RegroupTail(GuidelinesHead, ContactToken, GuidelinesMiddle, ContactToken, GuidelinesTail);
    OccursBetween(GuidelinesHead, ContactToken, after);
    OccurrenceContains(Guidelines(), ContactToken, |GuidelinesHead|);
  }

  /** Whatever the context, the prompt instructs the model to use the marker. */
  lemma SystemPromptMentionsToken(companyInfo: string)
    ensures Contains(SystemPrompt(companyInfo), ContactToken)
  {
    GuidelinesMentionToken();
    ContainsExtendLeft(Preamble + companyInfo, Guidelines(), ContactToken);
  }

  /** Different contexts give different prompts: the prompt determines the context. */
  lemma SystemPromptInjective(a: string, b: string)
    requires SystemPrompt(a) == SystemPrompt(b)
    ensures a == b
  {
    MiddleDetermined(Preamble, a, b, Guidelines());
  }

  /** Two strings with the same surroundings are equal when the results are. */
  lemma MiddleDetermined(p: string, a: string, b: string, g: string)
    requires p + a + g == p + b + g
    ensures a == b
  {
    assert |a| == |b|;
    assert a == (p + a + g)[|p|..|p| + |a|];
    assert b == (p + b + g)[|p|..|p| + |b|];
  }
}
