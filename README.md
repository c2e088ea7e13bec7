# Hospital assistant: emotion greeting and intent matching, modelled in Dafny

The hospital assistant greets a visitor according to the expression on
their face. It answers typed questions by matching them against a table of
intents. This project models the decision logic of both halves:

- **Expression heuristic** (`detect_emotion`, in both
  `emotion_greeting_assistant.py` and `face_emotion.py`). It reads eight face
  landmarks and divides three distances by the mouth width. An ordered chain
  of thresholds then gives one of *surprised*, *happy*, *angry*, *sad* or
  *neutral*. A landmark list that is too short raises IndexError. Coinciding
  mouth corners raise ZeroDivisionError. Both are modelled as results.
  (module `Geometry`)
- **Smoothing**: a `deque(maxlen=n)` of recent labels, voted on with
  `Counter(...).most_common(1)`. Ties go to the label that first occurred
  earliest in the window. (module `Collections`, and
  `EmotionAssistant.EmotionSmoother`)
- **Greeting once**. The stand-alone assistant greets when it has not greeted
  yet and strictly more than 15 seconds have passed since `last_greet`. The
  background engine publishes its greeting in the shared `latest_greeting`
  slot at most once. The keras-based variant picks the first highest of seven
  class scores, falls back to "neutral" on any failure, and greets the first
  detected face. (modules `EmotionAssistant`, `FaceEmotion`,
  `IntegrateFaceEmotion`, `Ranking`)
- **Intent matching** (`nlp_model.py`). Text is cleaned by lowering it,
  stripping it and removing punctuation. Every pattern of every intent is
  scored:
  - 0.9 when one text contains the other, otherwise the sequence similarity;
  - then raised to the keyword overlap when the two share a word.
  - The first strictly highest score wins if it reaches 0.4.

  Blank input is asked to be repeated. A matched intent answers with one of
  its responses, and no match gives the default response. (module
  `HospitalNlp`)

Distances (`math.dist`) and the text similarity (`difflib.SequenceMatcher`)
are parameters of the model. The camera, the face mesh, the classifier, the
clock and the random draw are inputs of the operations that use them.

## Model

| member | source | states |
|---|---|---|
| Geometry.Features | emotion_greeting_assistant.py:36-63 | IndexError exactly when the list has no index 291; ZeroDivisionError exactly when the mouth width is 0; otherwise the width is positive |
| Geometry.FeaturesRecoverDistances | emotion_greeting_assistant.py:55-63 | each ratio is non-negative and times the mouth width gives back its distance |
| Geometry.Classify | emotion_greeting_assistant.py:65-74 | the first-match threshold chain, each label given as an iff over the ratios (disjoint regions covering all ratios) |
| Geometry.DetectEmotion | face_emotion.py:19-49 | `detect_emotion` raises exactly on a too-short list or zero mouth width, and which error is which |
| Geometry.DetectEmotionOnDistances | emotion_greeting_assistant.py:55-74 | the label as an iff over the raw distances, thresholds scaled by the mouth width, with no division |
| Geometry.ClassifyOnDistances | emotion_greeting_assistant.py:61-74 | the threshold chain restated on distances for a positive width |
| Geometry.ScaleCompare | emotion_greeting_assistant.py:61-63 | helper (arithmetic/set fact, no source behaviour of its own): comparisons survive multiplication by a positive width |
| Geometry.FeaturesScaleInvariant | emotion_greeting_assistant.py:55-63 | scaling all distances by k > 0 changes neither the ratios nor the errors |
| Geometry.Rescale | emotion_greeting_assistant.py:61-63 | helper (arithmetic/set fact, no source behaviour of its own): a common positive factor cancels in a ratio |
| Geometry.MouthWidth | emotion_greeting_assistant.py:55 | no contract; the body is the model (distance between landmarks 61 and 291); properties in Features and DetectEmotionOnDistances |
| Geometry.MouthOpen | emotion_greeting_assistant.py:56 | no contract; the body is the model (landmarks 13 and 14); properties in FeaturesRecoverDistances and DetectEmotionOnDistances |
| Geometry.EyeOpen | emotion_greeting_assistant.py:57 | no contract; the body is the model (landmarks 159 and 145); properties in FeaturesRecoverDistances and DetectEmotionOnDistances |
| Geometry.BrowDist | emotion_greeting_assistant.py:58 | no contract; the body is the model (landmarks 105 and 33); properties in FeaturesRecoverDistances and DetectEmotionOnDistances |
| Geometry.Label.Name | emotion_greeting_assistant.py:65-74 | no contract; the label spelled as `detect_emotion` returns it; properties in EmotionAssistant.GreetingPerLabel and FaceEmotion.GreetingPerLabel |
| Ranking.FirstArgMax | integrate_face_emotion.py:47 | `np.argmax`: the index of a maximum, with every earlier entry strictly smaller |
| Ranking.FirstArgMaxUnique | integrate_face_emotion.py:47 | that index is the only one with both properties |
| Collections.DequeAppend | emotion_greeting_assistant.py:81-84 | `append` on a bounded deque: the length grows up to maxlen; the result is the newest elements of buffer + [x]; the last one is x |
| Collections.FirstIndex | emotion_greeting_assistant.py:85 | the first position holding x |
| Collections.FirstIndexAppend | emotion_greeting_assistant.py:85 | appending keeps existing first occurrences |
| Collections.FirstIndexNew | emotion_greeting_assistant.py:85 | a new value first occurs where it was appended |
| Collections.Count | emotion_greeting_assistant.py:85 | helper, no contract: the number of occurrences, as a multiset count |
| Collections.Bump | emotion_greeting_assistant.py:85 | no contract; the body is the model (`counter[x] += 1`: a known key keeps its place, a new key goes last); properties in BumpTallies |
| Collections.CounterOf | emotion_greeting_assistant.py:85 | no contract; the body is the model (`Counter(s)`, counting left to right); properties in CounterOfTallies |
| Collections.Tallies | emotion_greeting_assistant.py:85 | specification predicate, no contract: counts equal occurrence counts and keys are in first-occurrence order (CountsMatch and KeysInOrder) |
| Collections.CountsInOrder | emotion_greeting_assistant.py:85 | helper, no contract: the key counts in key order, the vector most_common ranks |
| Collections.BumpTallies | emotion_greeting_assistant.py:85 | counting one more element keeps counts and key order in step with the sequence |
| Collections.BumpCounts | emotion_greeting_assistant.py:85 | one increment keeps every count equal to the occurrence count |
| Collections.BumpKeys | emotion_greeting_assistant.py:85 | one increment keeps the keys in first-occurrence order |
| Collections.CounterOfTallies | emotion_greeting_assistant.py:85 | `Counter(s)` holds every element's occurrence count, keys in first-occurrence order |
| Collections.MostCommon | emotion_greeting_assistant.py:85 | `most_common(1)[0][0]` is absent exactly for an empty window, and otherwise an element of it |
| Collections.MostCommonIsMode | emotion_greeting_assistant.py:85 | the vote has maximal count, and every element before its first occurrence has a strictly smaller count (ties to the earliest) |
| Collections.ModeFacts | emotion_greeting_assistant.py:85 | the chosen key's maximality and tie-break, stated over positions of the window |
| Collections.ModeCount | emotion_greeting_assistant.py:85 | the chosen key's count bounds every key's, strictly for earlier keys |
| Collections.KeyBefore | emotion_greeting_assistant.py:85 | a key seen before the chosen key's first occurrence is listed before it |
| Collections.MostCommonSingleton | face_emotion.py:92-93 | a window holding one label votes for that label |
| EmotionAssistant.GreetingFromEmotion | emotion_greeting_assistant.py:90-98 | the table's text for a known label; "Hello!" exactly for unknown ones |
| EmotionAssistant.GreetingPerLabel | emotion_greeting_assistant.py:90-98 | every label has its own text, never the fallback |
| EmotionAssistant.EmotionSmoother.constructor | emotion_greeting_assistant.py:80-81 | an empty window of the given size |
| EmotionAssistant.EmotionSmoother.Update | emotion_greeting_assistant.py:83-85 | the window is the deque append; the result is its most common label, present whenever size > 0 |
| EmotionAssistant.Assistant.constructor | emotion_greeting_assistant.py:117-120 | a 15-label smoother, not greeted, `last_greet` 0, nothing spoken |
| EmotionAssistant.Assistant.Observe | emotion_greeting_assistant.py:141-160 | feeds the smoother, then greets its vote exactly when not greeted and now − last_greet > 15 |
| EmotionAssistant.Assistant.MaybeGreet | emotion_greeting_assistant.py:155-160 | the trigger: speak, set greeted and record the time iff not greeted and strictly past the cooldown; else nothing changes |
| EmotionAssistant.Assistant.Step | emotion_greeting_assistant.py:127-160 | no face: nothing changes; a detect_emotion fault: reported, nothing changes; otherwise smoother fed and trigger applied |
| EmotionAssistant.Assistant.Run | emotion_greeting_assistant.py:115-165 | over any frames, at most one greeting is ever spoken, and none if one was spoken before |
| FaceEmotion.GreetingFromEmotion | face_emotion.py:51-58 | the table's text for a known label; "Hello!" exactly for unknown ones |
| FaceEmotion.GreetingPerLabel | face_emotion.py:51-58 | every label has its own hospital greeting, never the fallback |
| FaceEmotion.FirstDetection | face_emotion.py:76-96 | no contract; the body is the model (the first face decides: its label, its fault, or nothing); properties in FirstDetectionIsFirstFace, and EmotionEngine.Run is proved against it |
| FaceEmotion.FirstDetectionIsFirstFace | face_emotion.py:76-96 | the engine's outcome is nothing exactly when no capture has a face, else detect_emotion's outcome on the first face |
| FaceEmotion.EmotionEngine.constructor | face_emotion.py:68-69 | empty smoother, not greeted, empty slot |
| FaceEmotion.EmotionEngine.Greet | face_emotion.py:91-98 | smoother becomes [label]; the slot holds that label's greeting; greeted is set |
| FaceEmotion.EmotionEngine.Step | face_emotion.py:77-98 | unread, faceless or already greeted: nothing changes; a fault is reported; else the label is greeted |
| FaceEmotion.EmotionEngine.Run | face_emotion.py:76-100 | the slot is written at most once, from None to the greeting of the first face's label, or the first face's fault ends the loop |
| IntegrateFaceEmotion.PredictEmotion | integrate_face_emotion.py:39-49 | always one of the seven classes; "neutral" on failure; for seven scores, the class of the first highest score |
| IntegrateFaceEmotion.EmotionsDistinct | integrate_face_emotion.py:11 | the seven class names are distinct |
| IntegrateFaceEmotion.GreetingFromEmotion | integrate_face_emotion.py:54-63 | the table's text for a known class; "Hello!" exactly for unknown ones |
| IntegrateFaceEmotion.GreetingTableKeys | integrate_face_emotion.py:54-63 | the greeting table covers exactly the seven classes |
| IntegrateFaceEmotion.GreetingPerEmotion | integrate_face_emotion.py:54-63 | distinct classes get distinct greetings, never the fallback |
| IntegrateFaceEmotion.GreetedAt | integrate_face_emotion.py:71-102 | specification predicate, no contract: the capture where the greeting is given (a face, after only read, faceless, non-quitting captures) |
| IntegrateFaceEmotion.FirstGreeting | integrate_face_emotion.py:71-102 | no contract; the body is the model (the loop's greeting from an ungreeted start); properties in FirstGreetingIsFirstFace, and Greeter.Run is proved against it |
| IntegrateFaceEmotion.FirstGreetingIsFirstFace | integrate_face_emotion.py:71-102 | no greeting exactly when the loop ends before any face; otherwise the greeting for the first face's prediction |
| IntegrateFaceEmotion.ShiftGreetedAt | integrate_face_emotion.py:71-102 | past a faceless, non-quitting capture the greeting position moves by one |
| IntegrateFaceEmotion.FirstGreetingFrom | integrate_face_emotion.py:71-102 | how the rest of the run depends on the next capture |
| IntegrateFaceEmotion.Greeter.constructor | integrate_face_emotion.py:69 | not greeted, nothing spoken |
| IntegrateFaceEmotion.Greeter.Step | integrate_face_emotion.py:72-102 | stops exactly on an unread capture or `q`; greets a face only when not greeted |
| IntegrateFaceEmotion.Greeter.Run | integrate_face_emotion.py:68-102 | speaks exactly the first face's greeting, or nothing; once greeted, never again |
| HospitalNlp.LowerFacts | nlp_model.py:35 | `lower()` keeps the length, leaves no upper-case letter, and keeps whether each character is a word or whitespace character |
| HospitalNlp.IsSpace | nlp_model.py:35 | no contract; `str.isspace` on ASCII, also the `\s` class at line 36 |
| HospitalNlp.IsWordChar | nlp_model.py:36 | no contract; the `\w` class on ASCII |
| HospitalNlp.IsUpper | nlp_model.py:35 | helper, no contract: the ASCII upper-case letters that `lower()` changes, used by LowerFacts |
| HospitalNlp.LowerChar | nlp_model.py:35 | no contract; the body is the model (one character of `lower()`); properties in LowerFacts |
| HospitalNlp.Lower | nlp_model.py:35 | no contract; the body is the model (`lower()`); properties in LowerFacts |
| HospitalNlp.TrimLeft | nlp_model.py:35 | no contract; the body is the model (leading half of `strip()`); properties in TrimLeftFacts |
| HospitalNlp.TrimRight | nlp_model.py:35 | no contract; the body is the model (trailing half of `strip()`); properties in TrimRightFacts |
| HospitalNlp.Strip | nlp_model.py:35 | no contract; the body is the model (`strip()`); properties in StripOffset, StripFacts, StripKeepsChars, StripKeepsWordChars |
| HospitalNlp.TrimLeftFacts | nlp_model.py:35 | the leading whitespace is removed and only that |
| HospitalNlp.TrimRightFacts | nlp_model.py:35 | the trailing whitespace is removed and only that |
| HospitalNlp.StripOffset | nlp_model.py:35 | `strip()` is a slice with only whitespace cut off either end |
| HospitalNlp.StripFacts | nlp_model.py:35 | the stripped text is a slice without whitespace at its ends, and is empty exactly for all-whitespace input |
| HospitalNlp.StripKeepsChars | nlp_model.py:35 | stripping introduces no character |
| HospitalNlp.RemovePunctuation | nlp_model.py:36 | no contract; the body is the model (`re.sub(r'[^\w\s]', '', text)`); properties in RemovePunctuationFacts |
| HospitalNlp.Preprocess | nlp_model.py:33-37 | no contract; the body is the model (`preprocess_text`: lower, strip, then remove punctuation); properties in PreprocessCharset and PreprocessKeepsWordChars |
| HospitalNlp.RemovePunctuationFacts | nlp_model.py:36 | only word and whitespace characters remain, each with its original count |
| HospitalNlp.RemovePunctuationChars | nlp_model.py:36 | every character kept is a word character or whitespace from the input |
| HospitalNlp.RemovePunctuationCounts | nlp_model.py:36 | word characters and whitespace keep their counts, and nothing is added |
| HospitalNlp.PreprocessCharset | nlp_model.py:33-37 | cleaned text holds only lower-case word characters and whitespace |
| HospitalNlp.PreprocessKeepsWordChars | nlp_model.py:33-37 | cleaning keeps every word character of the lowered text, with its count |
| HospitalNlp.StripKeepsWordChars | nlp_model.py:35 | stripping keeps every word character with its count |
| HospitalNlp.NoWordCharIn | nlp_model.py:35 | helper (arithmetic/set fact, no source behaviour of its own): an all-whitespace text holds no word character |
| HospitalNlp.SplitFromFacts | nlp_model.py:62-63 | `split()` gives non-empty words without whitespace, and none exactly for blank text |
| HospitalNlp.SplitFrom | nlp_model.py:62-63 | no contract; the body is the model (`split()` with the word under construction); properties in SplitFromFacts and SplitFromConcat |
| HospitalNlp.Split | nlp_model.py:62-63 | no contract; the body is the model (`split()`); properties in SplitFromFacts and SplitFromConcat |
| HospitalNlp.NonSpace | nlp_model.py:62-63 | helper, no contract: the non-whitespace characters in order |
| HospitalNlp.Concat | nlp_model.py:62-63 | helper, no contract: the words written one after another |
| HospitalNlp.SplitFromConcat | nlp_model.py:62-63 | `split()` loses and reorders no character: the words written one after another are exactly the non-whitespace characters in order |
| HospitalNlp.SplitFromNoSpace | nlp_model.py:62-63 | a stretch without whitespace is a single word, joined to the word in progress (so `split()` never breaks a word between two non-space characters) |
| HospitalNlp.SplitFromAtSpace | nlp_model.py:62-63 | each whitespace character ends the word in progress: the words around it are the words of the part before it followed by those of the part after |
| HospitalNlp.SetOf | nlp_model.py:62-63 | no contract; the body is the model (`set(...)` of a word list); properties in SetOfMembers |
| HospitalNlp.WordSet | nlp_model.py:62-63 | no contract; the body is the model (`set(text.split())`); properties in WordSetFacts |
| HospitalNlp.SetOfMembers | nlp_model.py:62-63 | `set(...)` holds exactly the list's words |
| HospitalNlp.WordSetFacts | nlp_model.py:62-63 | no empty word; empty exactly for blank text |
| HospitalNlp.IsSubstringIff | nlp_model.py:55 | `in` on strings is occurrence at some position |
| HospitalNlp.OccursAt | nlp_model.py:55 | specification predicate, no contract: the needle is the slice of the haystack at i |
| HospitalNlp.IsSubstring | nlp_model.py:55 | no contract; the body is the model (string `in`); properties in IsSubstringIff |
| HospitalNlp.SubsetCard | nlp_model.py:67 | helper (arithmetic/set fact, no source behaviour of its own): a subset is no larger than the set it is in |
| HospitalNlp.Overlap | nlp_model.py:62-68 | no contract; the body is the model (the keyword score: shared words over the larger word count); properties in OverlapBounds |
| HospitalNlp.OverlapBounds | nlp_model.py:62-68 | keyword score 0 exactly when no word is shared, and always in [0, 1] |
| HospitalNlp.RatioInUnit | nlp_model.py:67 | helper (arithmetic/set fact, no source behaviour of its own): a positive count over a no-smaller one lies in (0, 1] |
| HospitalNlp.PatternScore | nlp_model.py:54-68 | no contract; the body is the model (0.9 on containment, else the similarity, raised to the overlap when a word is shared); properties in PatternScoreBounds, EmptyTextScore, ExactMatchScore |
| HospitalNlp.PatternScoreBounds | nlp_model.py:54-68 | the score is max(base, overlap): the base is 0.9 under containment in either direction and the similarity otherwise; the score is the base unless a shared word gives a strictly higher keyword score, when it is that score; at least each candidate that applies; in [0, 1] for a ratio similarity |
| HospitalNlp.EmptyTextScore | nlp_model.py:55-56 | empty cleaned text scores 0.9 against every pattern |
| HospitalNlp.ExactMatchScore | nlp_model.py:55-68 | a text with a word scores 1 against itself |
| HospitalNlp.Row | nlp_model.py:51-68 | one score per pattern of an intent, as many as patterns; entries in RowEntry |
| HospitalNlp.Table | nlp_model.py:50-68 | one row per intent, each as long as its pattern list; entries in TableEntry |
| HospitalNlp.RowEntry | nlp_model.py:51-68 | entry j of a row is pattern j's score |
| HospitalNlp.TableEntry | nlp_model.py:50-68 | entry (i, j) of the table is pattern j of intent i's score |
| HospitalNlp.Before | nlp_model.py:50-51 | specification predicate, no contract: the scan visits entry (i, j) before entry (bi, bj) |
| HospitalNlp.IsBest | nlp_model.py:70-72 | specification predicate, no contract: the entry holds the highest score and every entry visited before it is strictly lower |
| HospitalNlp.IsFindResult | nlp_model.py:43-78 | specification predicate, no contract: None when every score is below 0.4, else the intent owning the IsBest entry; FindIntent is proved against it |
| HospitalNlp.BestUnique | nlp_model.py:70-72 | the first strictly highest entry is unique |
| HospitalNlp.FindResultUnique | nlp_model.py:43-78 | `find_intent` has exactly one answer |
| HospitalNlp.CleanedEmptyMatchesFirst | nlp_model.py:43-78 | input that cleans to "" matches the first intent with a pattern |
| HospitalNlp.Leading | nlp_model.py:50-72 | loop-state predicate, no contract: after the entries visited so far, the kept intent owns their first strictly highest entry |
| HospitalNlp.LeadingStep | nlp_model.py:70-72 | one comparison keeps the running best the first strict maximum so far |
| HospitalNlp.LeadingNextIntent | nlp_model.py:50-51 | finishing an intent's patterns moves the scan to the next intent |
| HospitalNlp.LeadingDone | nlp_model.py:50-72 | after the scan, highest bounds every score and the kept intent owns the first best entry |
| HospitalNlp.Decimal | nlp_model.py:106 | a non-empty string of digits |
| HospitalNlp.DecimalRoundTrip | nlp_model.py:106 | reading the decimal numeral back gives the count |
| HospitalNlp.NumeralValue | nlp_model.py:106 | helper, no contract: the value of a digit string, the inverse used by DecimalRoundTrip |
| HospitalNlp.IsAnswer | nlp_model.py:80-91 | specification predicate, no contract: the default on no match, IndexError for an intent without responses, else one of its responses; GetResponse is proved against it |
| HospitalNlp.HospitalNLPModel.constructor | nlp_model.py:10-15 | starts empty and loads: each load outcome's intents and default response |
| HospitalNlp.HospitalNLPModel.LoadTrainingData | nlp_model.py:17-31 | parsed file: both entries with their defaults; missing file or bad JSON: intents kept, matching error text |
| HospitalNlp.HospitalNLPModel.ReloadTrainingData | nlp_model.py:103-106 | loads again with `load_training_data`'s outcome for both the intents and the default response, and reports the new number of intents |
| HospitalNlp.HospitalNLPModel.ScoreAt | nlp_model.py:52-68 | the computed score is the table's entry |
| HospitalNlp.HospitalNLPModel.FindIntent | nlp_model.py:43-78 | None when every score is below 0.4, else the intent owning the first strictly highest score |
| HospitalNlp.HospitalNLPModel.ScanIntent | nlp_model.py:51-72 | scanning one intent's patterns extends the running first-best over them |
| HospitalNlp.HospitalNLPModel.GetResponse | nlp_model.py:80-91 | blank input: "didn't catch that"; else the default when nothing matches, a response of the match, or IndexError for an intent with no responses |
| HospitalNlp.HospitalNLPModel.IsGreeting | nlp_model.py:93-96 | true exactly when the match is tagged "greeting" |
| HospitalNlp.HospitalNLPModel.IsDiagnosisQuery | nlp_model.py:98-101 | true exactly when the match's tag is diagnosis, symptoms or medication |

## Left out

- EmotionAssistant.Assistant.Run: states only that at most one greeting is ever spoken, and none after an earlier one. It does not say which frame's vote and clock time trigger it; `Step` and `Observe` state that per frame.
- EmotionAssistant.Assistant.Run: the `q` key that ends `main` is not an input. Quitting after frame i behaves like running on the first i + 1 frames.
- HospitalNlp.HospitalNLPModel.GetResponse: `random.choice` is modelled by a `pick` parameter. The contract states only that the answer is one of the intent's responses, not which one.
- HospitalNlp.HospitalNLPModel.IsGreeting and IsDiagnosisQuery return a bool. In Python, `intent and ...` returns None when nothing matches, which is falsy.
- Geometry: `math.dist` and its square root are not modelled. The distance is a parameter that is only assumed non-negative. Reals stand for floats, so rounding is not modelled.
- Geometry.Frame: the face mesh is not modelled. A frame either delivers its landmark list or no face at all. The integer pixel conversion of landmarks is not modelled.
- IntegrateFaceEmotion.PredictEmotion: the crop, resize and keras prediction are not modelled; their outcome is an input (scores, or a failure). NaN scores are not modelled.
- The clock (`time.time()`) is an input sequence, one reading per frame. The two readings in the greeting trigger are taken as one.
- Text-to-speech, `print`, the display window and drawing are not modelled. What is spoken is recorded in `spoken`, and the published text in `latestGreeting`.
- `start_emotion_engine`: the thread, the lock and `time.sleep` are not modelled. The infinite loops are modelled over finite sequences of captures. An exception ends the thread and is returned as a fault.
- `GREETING_COOLDOWN` (emotion_greeting_assistant.py:12, 156) suggests a greeting that repeats after each cooldown. But `greeted` is never reset, so the code greets at most once per run; the model follows the code.
- HospitalNlp text handling:
  - The text is a sequence of characters. Lower-casing covers ASCII letters only.
  - `\w` is taken as ASCII letters, digits and `_`, and `\s` and `split()` as ASCII whitespace. Unicode case folding and Unicode classes are not modelled.
  - The cleaning strips before it removes punctuation, as the code does. It is therefore not idempotent: `"hi !"` cleans to `"hi "`.
- HospitalNlp.Similarity: `SequenceMatcher.ratio` is a parameter. Facts that need it in [0, 1] assume this through `IsRatio`.
- HospitalNlp.LoadOutcome: opening the file and JSON parsing are not modelled. Their result is an input. It has no case for the exceptions `load_training_data` does not catch (nlp_model.py:20-21: PermissionError, IsADirectoryError, UnicodeDecodeError), which propagate out of `load_training_data` and `__init__`.
  - Entries that are not the expected shape are not modelled, so neither are the KeyErrors they would raise.
  - A falsy intent dict (`{}`) is not modelled either: intents are records.
- `main.py` and `training.py` are not part of this model.
