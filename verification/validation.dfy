/** The add-todo validation shared by the todo controller (hooks/useTodos.ts) and
    the input form (components/TodoInput/TodoInput.tsx): the trimmed text must be
    non-empty, the UNTRIMMED text at most 100 characters long, and at least one
    category must be chosen. The text is checked first. */
module Validation {
  import opened Text

  const MaxTextLength: nat := 100
  const ErrorTitle := "Error"
  const TextLengthMessage := "La tarea debe tener entre 1 y 100 caracteres"
  const NoCategoryMessage := "Seleccione al menos una categoría"

  datatype Verdict = Accepted | TextRejected | NoCategories {
    /** The alert message a rejection raises. */
    function Message(): (m: string)
      requires !Accepted?
    {
      if TextRejected? then TextLengthMessage else NoCategoryMessage
    }
  }

  /** Classifies an add request. A rejection because of the text wins over one
      because of the categories. */
  function Validate(text: string, categories: seq<string>): (v: Verdict)
    ensures v == Accepted <==> !AllWhitespace(text) && |text| <= MaxTextLength && |categories| > 0
    ensures v == TextRejected <==> AllWhitespace(text) || |text| > MaxTextLength
    ensures v == Accepted ==> 1 <= |Trim(text)| <= MaxTextLength
  {
    TrimEmptyIff(text);
    if Trim(text) == "" || |text| > MaxTextLength then TextRejected
    else if |categories| == 0 then NoCategories
    else Accepted
  }

  /** The 100-character limit applies to the untrimmed text: a text whose trimmed
      form has exactly 100 characters is still rejected when padding makes it longer. */
  lemma LimitCountsPadding()
    ensures var t := " " + seq(100, _ => 'a');
      |Trim(t)| == 100 && Validate(t, ["personal"]) == TextRejected
  {
    var t := " " + seq(100, _ => 'a');
    assert TrimStart(t[1..]) == t[1..];
    assert TrimEnd(t[1..]) == t[1..];
  }
}
