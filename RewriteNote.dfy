/**
 * The placeholder rewrite flow (src/ai/flows/rewrite-note.ts): no model is called; the
 * note comes back with a marker appended that names the requested tone, if any.
 */
module RewriteNote {
  import opened Wrappers

  /**
   * `rewriteNote`. An absent tone and the empty tone (falsy in JavaScript) both give the
   * generic marker; the output always starts with the unchanged input and ends with ')'.
   */
  method RewriteNote(noteContent: string, tone: Option<string>) returns (rewrittenContent: string)
    ensures |rewrittenContent| > |noteContent| && rewrittenContent[..|noteContent|] == noteContent
    ensures rewrittenContent[|rewrittenContent| - 1] == ')'
    ensures tone == None || tone == Some("")
            ==> rewrittenContent == noteContent + " (Placeholder: Rewritten)"
    ensures tone.Some? && tone.value != ""
            ==> rewrittenContent == noteContent + " (Placeholder: Rewritten in a " + tone.value + " tone)"
  {
    var prefix := " (Placeholder: Rewritten";
    if tone.Some? && tone.value != "" {
      prefix := prefix + " in a " + tone.value + " tone";
    }
    prefix := prefix + ")";
    rewrittenContent := noteContent + prefix;
  }
}
