# Photo Story Curator: the curation logic, in Dafny

This project models the non-UI logic of `app.py`, a Streamlit app that takes a batch of
uploaded photos and one seed photo. It asks a generative model for three themed four-photo
"patterns" and shows each one with its resolved photos. The script runs in this order:

1. It chooses a model name from the service's model listing.
2. It samples the candidates: the seed plus up to 24 shuffled other uploads.
3. It cuts the JSON array out of the model's free-text reply.
4. It resolves each pattern's `files` tokens back to uploads by substring matching.
5. It keeps a two-field session state: `patterns` and `target_name`. This state decides
   what is shown when the script re-runs.

Modules, leaf first:

- `Wrappers`: `Option`, a list of zero or one elements, and Python's `s[:n]`.
- `Strings`: Python's `a in b` on strings, and `str.replace(pat, "")`.
- `Uploads`: the upload record, and `get_file_by_name` as a loop method. The loop is proved
  against a recursive specification function.
- `Sampler`: the filter of non-seed uploads, and the in-place shuffle on an `array`. The
  shuffle's randomness is a permutation parameter. Also the candidate list.
- `JsonSpan`: the greedy DOTALL search for `\[.*\]`, proved equal to a leftmost-longest
  regular-expression match.
- `ModelSelection`: the model listing filter and the flash / pro / first-name preference.
- `Resolver`: the nested token/upload loops with `break`, the seed inserted at index 0,
  and the cut to four. The method is proved against a recursive specification.
- `Scenarios`: concrete resolver runs. One shows that a set is not padded; one shows that an
  upload can be repeated.
- `Session`: the session state as a class with `Valid()`. It has the generate run, which
  clears, runs and commits, and the rendering of the result tabs.

The code departs from a design that de-duplicates resolved sets, pads them to four photos,
keeps the previous result when a run fails and drops photos it cannot decode. The model
follows the code:

- The resolver does not de-duplicate. Two tokens that match the same upload add it twice
  (`Scenarios.RepeatedUploadKept`).
- A set that resolves to fewer than four photos is not padded with random photos
  (`Scenarios.UnderResolvedSetIsNotPadded`).
- A generate button clears the previous result before the run starts (app.py:112-123).
  A failed run therefore does not leave the previous result visible.
- A candidate image that cannot be decoded during the run (app.py:175-181) raises into the
  outer `except`, which ends the whole run instead of dropping that candidate. The model
  folds this into `respond` returning None.
- Tokens are matched against all uploads, not only the 25 candidates that were sent.
- The call `get_file_by_name` takes the first upload with that exact name. Uploads that only
  share a name with the seed are excluded from both the candidates and the matches.

## Model

| member | source | states |
|---|---|---|
| Uploads.FileByName | app.py:64-69 | a file the lookup returns is one of the uploads and carries exactly the queried name |
| Uploads.GetFileByName | app.py:64-69 | the scan returns what the first-file-of-that-name specification gives, and that file is in the list with the queried name |
| Uploads.FileByNameSpec | app.py:64-69 | the lookup yields the upload of least index whose name equals the query, and nothing exactly when no upload has that name |
| Uploads.FileByNameAt | app.py:64-69 | a file with the queried name at index i, with no such file before it, is exactly what the lookup returns |
| Wrappers.Prefix | app.py:166 | Python's `s[:n]`, also used at app.py:278: the first min(n, len(s)) elements, a prefix of `s` |
| Sampler.OthersOf | app.py:164 | the filtered list holds exactly the uploads whose name differs from the seed's, each exactly as often as uploaded |
| Sampler.Shuffle | app.py:165 | after the in-place shuffle, position k of the array holds the old element at perm[k] |
| Sampler.PermutationKeepsElements | app.py:165 | a shuffle by a permutation keeps the same multiset of uploads |
| Sampler.SampleCandidates | app.py:163-166 | the candidates are the seed followed by the first 24 of the shuffled non-seed uploads |
| Sampler.Candidates | app.py:166 | the candidate list opens with the seed and holds at most 1 + 24 entries |
| Sampler.CandidatesLength | app.py:163-166 | the seed comes first and the list has 1 + min(24, number of uploads not named like the seed) entries |
| Sampler.CandidatesAreOthers | app.py:164-166 | every entry after the seed is an upload whose name differs from the seed's |
| Sampler.CandidatesWithoutRepeats | app.py:164-166 | no upload is sent more often than it was uploaded, and when at most 24 others exist all of them are sent |
| JsonSpan.ExtractArray | app.py:231 | an extracted span opens with `[`, closes with `]` and is no longer than the reply |
| JsonSpan.ExtractArrayIsSearch | app.py:231 | extraction succeeds exactly when a `]` follows a `[`; the result is then the leftmost-longest span from `[` to `]`, as the greedy DOTALL search returns |
| JsonSpan.ProseIgnored | app.py:231 | prose before the first `[` and after the last `]` is dropped and the bracketed array comes back unchanged |
| Strings.RemoveAllAbsent | app.py:153 | `replace('models/', '')` leaves a name without that substring unchanged |
| Strings.Contains | app.py:151-152 | Python's `needle in hay` on strings: a prefix is always contained, and a contained string is never longer than the string holding it |
| Strings.RemoveAll | app.py:153 | `replace(pat, '')` never makes a name longer |
| Strings.LeadingRemoved | app.py:153 | a proof step, not a property of the source: one unfolding of the removal scan when the name starts with the pattern |
| ModelSelection.Available | app.py:150 | the available names are exactly the names of models that support `generateContent` |
| ModelSelection.Offers | app.py:151-152 | `any(family in m for m in available)`: a listing holding the family's exact name offers it, and an empty listing offers nothing |
| ModelSelection.SelectModel | app.py:150-153 | there is no choice exactly when the listing failed or no listed model supports `generateContent` |
| ModelSelection.SelectModelOrder | app.py:150-154 | the choice is flash when any available name contains it, else pro when any contains it, else the first available name with `models/` removed; there is no choice only when listing failed or no model is available |
| ModelSelection.PreferredFamilyStable | app.py:151-152 | when flash or pro is offered, the choice depends only on which flash and pro names are available, not on their order or on other models |
| ModelSelection.FlashKeptWhenListingGrows | app.py:151 | adding models before or after a listing that offers flash still yields flash |
| ModelSelection.UnsupportedModelIgnored | app.py:150-151 | when every flash-named model lacks `generateContent`, the filtered listing does not offer flash, so the flash preference does not fire |
| ModelSelection.FallbackDropsPrefix | app.py:153 | in the fallback, `models/<rest>` yields `<rest>` |
| ModelSelection.Usable | app.py:156 | `if not model_name` stops the run on both falsy values, None and the empty name, and on nothing else |
| ModelSelection.UsableExactly | app.py:150-158 | the run goes past the probe exactly when the listing came back with a usable model and either flash or pro is offered or the fallback name is more than `models/` |
| ModelSelection.BarePrefixNameStopsRun | app.py:153-158 | a listing whose only model is named `models/` yields the empty name, which stops the run like having no model |
| Resolver.Qualifies | app.py:269-270 | an upload carrying the seed's name never qualifies for a token |
| Resolver.FirstMatch | app.py:268-273 | the upload a token picks is one of the uploads and qualifies for that token |
| Resolver.FirstMatchSpec | app.py:268-273 | a token picks the upload of least index whose name contains the token or is contained in it and is not the seed's name; it picks nothing exactly when no upload qualifies |
| Resolver.Matches | app.py:266-273 | the tokens pick at most one upload each, so no more uploads than tokens |
| Resolver.OneToken | app.py:266-273 | a proof step, not a property of the source: one unfolding of the match list for a single token, its first qualifying upload or nothing |
| Resolver.MatchesAppend | app.py:266-273 | the matches of two token lists in a row are the first list's matches followed by the second's, so entries come out in token order |
| Resolver.MatchesQualify | app.py:268-271 | every matched upload is one of the uploads, does not carry the seed's name, and qualifies for some token |
| Resolver.Resolve | app.py:261-278 | a resolved set never holds more than four photos |
| Resolver.ResolveShape | app.py:261-278 | at most four entries; when the seed's name is among the uploads, its first upload of that name comes first and the matches follow; otherwise only matches; as long as the list allows, up to four |
| Resolver.ResolvedEntriesQualify | app.py:266-278 | every entry after the seed is a non-seed-named upload that qualifies for some token |
| Resolver.ResolveReferences | app.py:261-278 | the nested loops with `break`, the insertion at index 0 and the cut to four compute exactly `Resolve` |
| Scenarios.TruncatedTokenMatches | app.py:269-271 | the token `IMG_001` finds `IMG_001.jpg` and not `IMG_002.jpg` |
| Scenarios.SeedTokenFindsNothing | app.py:270 | a token that names only the seed adds nothing |
| Scenarios.TokenFindsItsFile | app.py:268-273 | the token `C` finds `C.jpg` after skipping earlier uploads |
| Scenarios.ForeignTokenFindsNothing | app.py:268-273 | a token longer than every upload name, holding none of their first letters, picks no upload |
| Scenarios.UnrelatedTokenFindsNothing | app.py:266-273 | a token unrelated to every name adds nothing |
| Scenarios.UnderResolvedSetIsNotPadded | app.py:261-278 | seed A.jpg with tokens A, C, zzz-no-match resolves to exactly [A.jpg, C.jpg] |
| Scenarios.PrefixPicksSecond | app.py:268-273 | behind the seed's own upload, a token that is a prefix of the second name picks that second upload |
| Scenarios.SamePickTwice | app.py:266-273 | two tokens that pick the same upload add it twice, in token order |
| Scenarios.RepeatedUploadKept | app.py:266-278 | tokens B and B.jpg resolve to [A.jpg, B.jpg, B.jpg]: nothing is de-duplicated |
| Session.SeedOf | app.py:107-118 | the seed is one of the uploads: the gallery's selection or the random draw |
| Session.Decode | app.py:230-233 | the patterns are the parse of the leftmost-longest `\[.*\]` match under DOTALL, and None when there is no match |
| JsonSpan.ExtractArrayReportsSearch | app.py:231 | the extraction is None when no span matches `\[.*\]`, and is the span of any leftmost-longest match |
| Session.SessionState.constructor | app.py:37-42 | a new session starts with `patterns`, `target_name` and `generated_mode` all None |
| Session.SessionState.HasResults | app.py:246 | `if st.session_state.patterns:` is false for both None and the empty list, and true for any non-empty list |
| Session.SessionState.Shown | app.py:246-256 | no tab is drawn unless `patterns` is non-empty; otherwise the first min(3, n) patterns are drawn |
| Session.SessionState.Clear | app.py:112-123 | either button sets both fields to None |
| Session.SessionState.Commit | app.py:232-234 | the parsed patterns and the seed's name are written together |
| Session.SessionState.Generate | app.py:106-243 | the state is cleared first; the outcome is a missing key, no usable model, a service failure or a malformed reply exactly under those conditions, and then both fields stay None and nothing is shown; both fields are committed together only when the reply decodes |
| Session.SessionState.Render | app.py:245-278 | nothing is drawn while there are no uploads, since the results area sits inside `if uploaded_files:` (app.py:72); with uploads, one view (a tab's content) per shown pattern, each of the first three patterns resolved against the current uploads and the committed seed name, with at most four photos each; nothing is resolved without results |

## Left out

- Streamlit widgets, layout, CSS, captions, progress bar and status texts (app.py:14-61, 74-100, 143-144, 248-260, 280-330): user interface.
- The gallery shows only the first 100 uploads (app.py:77-94). The model takes the selected index as any valid index into the uploads.
- Image decoding, thumbnails at 150, 800, 1024 and 2048, RGB conversion and JPEG encoding at quality 90 (app.py:80-84, 175-181, 283-286, 313-320): image-library calls. Only the candidate preparation at app.py:175-181 runs inside the run's `try`; the model folds a failure there into `respond` returning None.
- Decode failures outside the run are not modelled. The gallery thumbnails (app.py:80-84) are built before any button is handled. The result preview (app.py:283-286) and the reduced download bundle (app.py:313-320) are built while rendering, after the commit and outside any `try`. A failure there ends the script run with the patterns still committed.
- `genai.configure`, `list_models`, `upload_file` and `generate_content` (app.py:142, 150, 183, 227-228): network calls. The listing, and the reply as a function of the model name and the candidates, are parameters. The reply is None only when a call before app.py:231 raises; a reply whose `response.text` raises is read inside the inner `try` and is given as a text with no bracketed span, which ends as a malformed reply. The prompt text (app.py:190-225) is not modelled.
- `json.loads` (app.py:233): a library parser. It is the parameter `parse`, and patterns are abstract records. The model does not cover a reply that parses to something other than a list of records; rendering that would raise at `pat.get`.
- `zipfile`, `io.BytesIO`, `tempfile` and `story.txt` (app.py:160, 177, 291-321): archive and file I/O.
- `random.choice` and `random.shuffle` (app.py:118, 165): an index and a permutation are passed in instead.
- `f.seek(0)` (app.py:67, 81, 137, 175, 283, 298, 314): the stream cursor of an upload is not part of the model.
- `st.stop()` and the outer `except Exception` (app.py:130-132, 156-158, 235-237, 242-243): they are modelled only as the outcome of the run. The error messages are not modelled.
- Sampler.Shuffle: models `random.shuffle` only by its effect, a permutation applied in place. The Fisher-Yates swaps inside the library are not modelled.
