/**
 * The prompt prefix put in front of the task for each command that starts an agent
 * session: a fixed table keyed by the command name, and one template for look-and-fix
 * into which the comment tag is substituted.
 */
module Prompts {

  /** The command names (`CommandType` values). */
  const CommandNew := "new"
  const CommandResearch := "research"
  const CommandPlan := "plan"
  const CommandImplement := "implement"
  const CommandFixTest := "fix-test"
  const CommandLookAndFix := "look-and-fix"
  const CommandQuick := "quick"

  /** The look-and-fix template around its single `%s` verb (the head is spelled in pieces
      so that the verifier can see that it holds no `%`). */
  const LookAndFixHead := "Take a look " + "at this repo " + "and search " + "for comments " + "tagged with "
  const LookAndFixTail := " and propose how to solve them. If a class name or filename is provided as a parameter, focus the search on that specific file or class."

  /** The tag used when look-and-fix is given none. */
  const DefaultCommentTag := "CMT"

  /** The `promptPrefixes` table. */
  const PromptPrefixes: map<string, string> := map[
    CommandNew := "",
    CommandResearch := "/research_codebase",
    CommandPlan := "/create_plan",
    CommandImplement := "/implement_plan implement all phases ignoring any manual verification steps",
    CommandFixTest := "Analyze and fix the failing test at:",
    CommandLookAndFix := LookAndFixHead + "%s" + LookAndFixTail,
    CommandQuick := ""
  ]

  /**
   * `fmt.Sprintf(template, arg)` for a template whose only verb is `%s`: the first `%s`
   * is replaced by `arg`, and everything else is copied.
   */
  function FormatString(template: string, arg: string): string
  {
    if |template| < 2 then template
    else if template[0] == '%' && template[1] == 's' then arg + template[2..]
    else [template[0]] + FormatString(template[1..], arg)
  }

  /** The verb is replaced in place when nothing before it could start another verb. */
  lemma {:induction false} FormatStringSubstitutes(head: string, tail: string, arg: string)
    requires '%' !in head
    ensures FormatString(head + "%s" + tail, arg) == head + arg + tail
  {
    if head == [] {
      assert head + "%s" + tail == "%s" + tail;
      assert ("%s" + tail)[2..] == tail;
    } else {
      assert (head + "%s" + tail)[1..] == head[1..] + "%s" + tail;
      FormatStringSubstitutes(head[1..], tail, arg);
      assert [head[0]] + (head[1..] + arg + tail) == head + arg + tail;
    }
  }

  /**
   * `GetPromptPrefix`: an unknown command has no prefix; look-and-fix gets its template
   * with the tag (or "CMT" when the tag is empty) substituted; every other command gets
   * its table entry unchanged.
   */
  function GetPromptPrefix(cmd: string, commentTag: string): (r: string)
    ensures cmd !in PromptPrefixes ==> r == ""
    ensures cmd == CommandLookAndFix ==>
      r == LookAndFixHead + (if commentTag == "" then DefaultCommentTag else commentTag) + LookAndFixTail
    ensures cmd in PromptPrefixes && cmd != CommandLookAndFix ==> r == PromptPrefixes[cmd]
  {
    if cmd !in PromptPrefixes then ""
    else if cmd == CommandLookAndFix then
      var tag := if commentTag == "" then DefaultCommentTag else commentTag;
      assert '%' !in LookAndFixHead;
      FormatStringSubstitutes(LookAndFixHead, LookAndFixTail, tag);
      FormatString(PromptPrefixes[cmd], tag)
    else PromptPrefixes[cmd]
  }

  /** Only look-and-fix depends on the comment tag. */
  lemma PrefixIgnoresTag(cmd: string, tag1: string, tag2: string)
    requires cmd != CommandLookAndFix
    ensures GetPromptPrefix(cmd, tag1) == GetPromptPrefix(cmd, tag2)
  {
  }

  /** The prefix is empty exactly for `new`, `quick` and unknown commands. */
  lemma EmptyPrefixExactly(cmd: string, tag: string)
    ensures GetPromptPrefix(cmd, tag) == "" <==>
      (cmd == CommandNew || cmd == CommandQuick || cmd !in PromptPrefixes)
  {
    if cmd == CommandLookAndFix {
      assert |GetPromptPrefix(cmd, tag)| >= |LookAndFixHead| > 0;
    } else if cmd in PromptPrefixes {
      assert cmd in {CommandNew, CommandResearch, CommandPlan, CommandImplement, CommandFixTest, CommandQuick};
    }
  }
}
