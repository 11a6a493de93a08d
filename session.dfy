/**
 * The per-session state that survives the script's re-runs: the last committed patterns and
 * the seed's name they were made for. A generate button clears both before anything else,
 * both are written together only once the reply has been parsed, and the result tabs are
 * drawn only while `patterns` is non-empty.
 */
module Session {
  import opened Wrappers
  import opened Uploads
  import opened Sampler
  import opened JsonSpan
  import opened ModelSelection
  import opened Resolver

  /** One parsed pattern: the reply's `files` tokens (empty when the key is missing) and its texts. */
  datatype Pattern = Pattern(files: seq<string>, theme: string, story: string, reason: string)

  /** The two generate buttons: the photo picked in the gallery, or a random draw. */
  datatype Button = Manual | Random

  /** How a generation run ended. Every outcome but Committed stops the run with an error message. */
  datatype RunOutcome = NoApiKey | NoModel | ServiceFailed | MalformedReply | Committed

  /** Result tabs: Visual, Emotional, Story. */
  const TabCount: nat := 3

  /** The seed: the gallery's selection for the manual button, `random.choice` (index `drawIndex`) for the other. */
  function SeedOf(uploads: seq<Upload>, button: Button, selectedIndex: nat, drawIndex: nat): (seed: Upload)
    requires selectedIndex < |uploads| && drawIndex < |uploads|
    ensures seed in uploads
  {
    match button
    case Manual => uploads[selectedIndex]
    case Random => uploads[drawIndex]
  }

  /**
   * The reply's patterns: the bracketed span is cut out and handed to the JSON parser
   * `parse`, which yields None where `json.loads` raises. A reply with no match of
   * `\[.*\]` yields None; otherwise the patterns are the parse of the leftmost-longest match.
   */
  function Decode(reply: string, parse: string -> Option<seq<Pattern>>): (d: Option<seq<Pattern>>)
    ensures (forall i, j :: !SpanMatches(reply, i, j)) ==> d.None?
    ensures forall i, j :: IsSearchResult(reply, i, j) ==> d == parse(reply[i..j])
    ensures d.Some? ==> exists i, j :: IsSearchResult(reply, i, j) && d == parse(reply[i..j])
  {
    ExtractArrayIsSearch(reply);
    ExtractArrayReportsSearch(reply);
    match ExtractArray(reply)
    case None => None
    case Some(span) => parse(span)
  }

  class SessionState {
    var patterns: Option<seq<Pattern>>
    var targetName: Option<string>
    /** Initialised with the others and never written again by the script. */
    var generatedMode: Option<string>

    /** The two committed fields are set and cleared together. */
    predicate Valid()
      reads this
    {
      patterns.Some? <==> targetName.Some?
    }

    /** A new session: the three keys start out as None. */
    constructor ()
      ensures Valid()
      ensures patterns == None && targetName == None && generatedMode == None
    {
      patterns := None;
      targetName := None;
      generatedMode := None;
    }

    /** `if st.session_state.patterns:` a list is truthy when it is not empty. */
    predicate HasResults()
      reads this
      ensures patterns == None ==> !HasResults()
      ensures patterns == Some([]) ==> !HasResults()
      ensures patterns.Some? && |patterns.value| > 0 ==> HasResults()
    {
      patterns.Some? && |patterns.value| > 0
    }

    /** The patterns that get a tab: the first three, and none while there are no results. */
    function Shown(): (shown: seq<Pattern>)
      reads this
      ensures |shown| <= TabCount
      ensures !HasResults() ==> shown == []
      ensures HasResults() ==>
        shown <= patterns.value && |shown| == (if |patterns.value| < TabCount then |patterns.value| else TabCount)
    {
      if HasResults() then Prefix(patterns.value, TabCount) else []
    }

    /** What either generate button does first: forget the previous run. */
    method Clear()
      modifies this
      ensures Valid()
      ensures patterns == None && targetName == None && generatedMode == old(generatedMode)
    {
      patterns := None;
      targetName := None;
    }

    /** The commit after a successful parse: both fields at once. */
    method Commit(parsed: seq<Pattern>, seedName: string)
      modifies this
      ensures Valid()
      ensures patterns == Some(parsed) && targetName == Some(seedName) && generatedMode == old(generatedMode)
    {
      patterns := Some(parsed);
      targetName := Some(seedName);
    }

    /**
     * One press of a generate button. The service is the function `respond`, from the
     * model name and the candidates to the reply text. It is None where a call before the
     * reply text is read raises: the temporary directory, the candidate image preparation,
     * `upload_file`, `GenerativeModel` or `generate_content`. A reply whose text cannot be read falls into the
     * same inner handler as a reply without an array, so it is given as a text with no
     * bracketed span. `listing` is the model listing (None where listing raises); `perm` is
     * the shuffle. The state is cleared first and committed only when the reply decodes; every
     * other outcome leaves both fields None, so no result is drawn.
     */
    method Generate(uploads: seq<Upload>, button: Button, selectedIndex: nat, drawIndex: nat,
                    apiKey: string, listing: Option<seq<ModelInfo>>, perm: seq<nat>,
                    respond: (string, seq<Upload>) -> Option<string>,
                    parse: string -> Option<seq<Pattern>>)
      returns (outcome: RunOutcome)
      requires selectedIndex < |uploads| && drawIndex < |uploads|
      requires IsPermutation(perm, |OthersOf(uploads, SeedOf(uploads, button, selectedIndex, drawIndex).name)|)
      modifies this
      ensures Valid()
      ensures generatedMode == old(generatedMode)
      ensures outcome != Committed ==> patterns == None && targetName == None && !HasResults()
      ensures outcome == NoApiKey <==> apiKey == ""
      ensures outcome == NoModel <==> apiKey != "" && !Usable(SelectModel(listing))
      ensures apiKey != "" && Usable(SelectModel(listing)) ==>
        var seed := SeedOf(uploads, button, selectedIndex, drawIndex);
        var reply := respond(SelectModel(listing).value, Candidates(uploads, seed, perm));
        && (outcome == ServiceFailed <==> reply.None?)
        && (outcome == MalformedReply <==> reply.Some? && Decode(reply.value, parse).None?)
        && (outcome == Committed ==>
              patterns == Decode(reply.value, parse) && targetName == Some(seed.name))
    {
      Clear();
      var seed := SeedOf(uploads, button, selectedIndex, drawIndex);
      if apiKey == "" {
        return NoApiKey;
      }
      var modelName := SelectModel(listing);
      if !Usable(modelName) {
        return NoModel;
      }
      var candidates := SampleCandidates(uploads, seed, perm);
      var reply := respond(modelName.value, candidates);
      if reply.None? {
        return ServiceFailed;
      }
      var span := ExtractArray(reply.value);
      if span.None? {
        return MalformedReply;
      }
      var parsed := parse(span.value);
      if parsed.None? {
        return MalformedReply;
      }
      Commit(parsed.value, seed.name);
      return Committed;
    }

    /**
     * The result area: each of the first three patterns resolves its tokens against the
     * current uploads and the committed seed name. The area lies inside `if uploaded_files:`,
     * so nothing is drawn without uploads, and nothing either while there are no results.
     */
    method Render(uploads: seq<Upload>) returns (views: seq<seq<Upload>>)
      requires Valid()
      ensures |uploads| == 0 ==> views == []
      ensures |uploads| > 0 ==> |views| == |Shown()|
      ensures forall i :: 0 <= i < |views| ==>
        views[i] == Resolve(Shown()[i].files, uploads, targetName.value) && |views[i]| <= SetSize
    {
      views := [];
      if |uploads| == 0 || !HasResults() {
        return;
      }
      var pats := patterns.value;
      var i := 0;
      while i < TabCount
        invariant 0 <= i <= TabCount
        invariant |views| == if i < |pats| then i else |pats|
        invariant forall k :: 0 <= k < |views| ==>
          views[k] == Resolve(pats[k].files, uploads, targetName.value) && |views[k]| <= SetSize
      {
        if i < |pats| {
          var targetFiles := ResolveReferences(pats[i].files, uploads, targetName.value);
          ResolveShape(pats[i].files, uploads, targetName.value);
          views := views + [targetFiles];
        }
        i := i + 1;
      }
    }
  }
}
