/** `getAiResponse`: the canned reply the chat screen shows, after the
    simulated delay. */
module Actions {
  import opened Text

  /** The three replies the responder can give. */
  predicate IsCannedReply(r: string)
  {
    r == "Hi" || r == "Hello" || r == "No"
  }

  /** Lower-case, then trim, then compare with the two greetings. */
  function GetAiResponse(userInput: string): (r: string)
    ensures IsCannedReply(r)
  {
    var lowerText := Trim(ToLower(userInput));
    if lowerText == "hi" then "Hi"
    else if lowerText == "hello" then "Hello"
    else "No"
  }

  /** Lower-casing does not turn anything into white space or back. */
  lemma LowerCharKeepsSpace(c: char)
    ensures IsSpace(LowerChar(c)) <==> IsSpace(c)
  {
  }

  /** Lower-casing keeps a string free of white space at both ends. */
  lemma LowerKeepsUnpadded(core: string)
    requires core == [] || (!IsSpace(core[0]) && !IsSpace(core[|core| - 1]))
    ensures var low := ToLower(core); low == [] || (!IsSpace(low[0]) && !IsSpace(low[|low| - 1]))
  {
    if core != [] {
      LowerCharKeepsSpace(core[0]);
      LowerCharKeepsSpace(core[|core| - 1]);
    }
  }

  /** Trimming and lower-casing can be done in either order. */
  lemma TrimLowerCommute(s: string)
    ensures Trim(ToLower(s)) == ToLower(Trim(s))
  {
    var p, core, q := TrimSplit(s);
    LowerSplit(p, core, q);
    ToLowerKeepsSpace(p);
    ToLowerKeepsSpace(q);
    LowerKeepsUnpadded(core);
    TrimUnique(p, ToLower(core), q);
  }

  lemma LowerSplit(p: string, core: string, q: string)
    ensures ToLower(p + core + q) == ToLower(p) + ToLower(core) + ToLower(q)
  {
    ToLowerConcat(p, core);
    ToLowerConcat(p + core, q);
  }

  /** The reply depends only on the input with surrounding white space
      removed, read without regard to ASCII case: "Hi" exactly for some
      casing of "hi", "Hello" exactly for some casing of "hello", and "No"
      for everything else. */
  lemma ReplyCharacterisation(s: string)
    ensures GetAiResponse(s) == "Hi" <==> ToLower(Trim(s)) == "hi"
    ensures GetAiResponse(s) == "Hello" <==> ToLower(Trim(s)) == "hello"
    ensures GetAiResponse(s) == "No" <==> ToLower(Trim(s)) != "hi" && ToLower(Trim(s)) != "hello"
  {
    TrimLowerCommute(s);
  }

  /** Changing the ASCII case of any letters does not change the reply. */
  lemma ReplyIgnoresCase(s: string, t: string)
    requires ToLower(s) == ToLower(t)
    ensures GetAiResponse(s) == GetAiResponse(t)
  {
  }

  /** Adding white space before or after the input does not change the
      reply. */
  lemma ReplyIgnoresPadding(p: string, s: string, q: string)
    requires AllSpace(p) && AllSpace(q)
    ensures GetAiResponse(p + s + q) == GetAiResponse(s)
  {
    ToLowerConcat(p, s);
    ToLowerConcat(p + s, q);
    ToLowerKeepsSpace(p);
    ToLowerKeepsSpace(q);
    TrimIgnoresPadding(p, ToLower(s), q);
  }

  lemma LowerHello()
    ensures ToLower("HeLLo") == "hello"
  {
    var r := ToLower("HeLLo");
    assert r[0] == 'h' && r[1] == 'e' && r[2] == 'l' && r[3] == 'l' && r[4] == 'o';
  }

  lemma ShoutedHello()
    ensures GetAiResponse("HeLLo") == "Hello"
  {
    LowerHello();
    TrimOfUnpadded("hello");
  }

  /** A shouted, padded greeting is still recognised. */
  lemma PaddedShoutedHello()
    ensures GetAiResponse("  HeLLo \n") == "Hello"
  {
    assert "  HeLLo \n" == "  " + "HeLLo" + " \n";
    ReplyIgnoresPadding("  ", "HeLLo", " \n");
    ShoutedHello();
  }
}
