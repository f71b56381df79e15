# FishFeeder-ML prediction endpoint, modelled in Dafny

FishFeeder-ML is a small Flask service. It takes an image uploaded to `POST /predict` and runs it
through a pre-trained Keras classifier. It answers with the best label and that label's score. Three
parts of `FishFeeder-ML/app.py` contain real logic, and this project models and proves those:

- `filenames.dfy` (module `Filenames`): the upload filter `allowed_file` and `ALLOWED_EXTENSIONS`.
  It uses its own last-index search, Python's `rsplit('.', 1)` and lowercasing. The proofs show the
  acceptance rule exactly: a dot must be present, only the text after the last dot is tested, case
  does not matter, and a trailing dot is refused.
- `selection.dfy` (module `Selection`): `labels[np.argmax(predictions)]` and
  `np.max(predictions)`. Scores are reals. `ArgMax` returns the first index of a greatest score. The
  confidence is the score at that index, and it is at least every other score. An empty score list or
  an index past the end of the label list is the error that the handler turns into a 500.
- `service.dfy` (module `Service`): the `predict()` handler, as the class `Predictor`. Its state is
  the temporary directory (a map from path to bytes) and a log of the calls it makes (save,
  preprocess, remove, infer). The checks run in a fixed order. Every 400 path changes nothing. On
  success the file is saved, preprocessed and removed, and only then is the model run. A failure
  after the save can leave the saved file behind.
- `outcomes.dfy` (module `Outcomes`): `Option`, plus `Attempt` and `Outcome`, which stand for a step
  that may raise an exception with a message.

Foreign calls are parameters of the model. `secure_filename`, the image decoding and preprocessing
(`preprocess_image`), and `model.predict` are functions passed to the `Predictor` constructor; each
of the last two can raise. For each request, the success or failure of `file.save` and `os.remove`
is passed to `Predict`. The label list (the lines of `Label.txt`) is a constructor argument.

`os.remove` (app.py:54) runs only when `preprocess_image` returns normally. When preprocessing
raises, the saved file stays in `tmp`. When `os.remove` raises, the answer is 500 and the model is
never run (`Predictor.Handled`).

## Model

| member | source | states |
|---|---|---|
| `Filenames.LastIndexOf` | FishFeeder-ML/app.py:21 | returns nothing exactly when the character does not occur; otherwise an index holding it with no occurrence after it |
| `Filenames.LastIndexOfUnique` | FishFeeder-ML/app.py:21 | an occurrence with no later occurrence is the one the last-index search returns |
| `Filenames.LowerChar` | FishFeeder-ML/app.py:21 | no contract; ASCII case folding of one character, used through `ToLower` |
| `Filenames.ToLower` | FishFeeder-ML/app.py:21 | no contract; ASCII `str.lower`, one character at a time, characterised by `SameDots`, `ToLowerSuffix` and `ToLowerOfLower` |
| `Filenames.ToLowerOfLower` | FishFeeder-ML/app.py:21 | text with no upper-case ASCII letter is unchanged by lowercasing |
| `Filenames.ToLowerSuffix` | FishFeeder-ML/app.py:21 | lowercasing commutes with taking the text after a position |
| `Filenames.AllowedFile` | FishFeeder-ML/app.py:20-21 | no contract; `allowed_file`, characterised by `AllowedFileIff`, `LastSuffixDecides` and `CaseInsensitive` |
| `Filenames.RSplitOnce` | FishFeeder-ML/app.py:21 | `rsplit(sep, 1)`: the whole string when `sep` is absent; otherwise two parts that rejoin around `sep` to the input, and the second part has no `sep` |
| `Filenames.NoDotRejected` | FishFeeder-ML/app.py:21 | a filename with no `.` is never allowed |
| `Filenames.AllowedFileIff` | FishFeeder-ML/app.py:18-21 | allowed exactly when some `.` has no `.` after it and the lowercased text after it is `jpg`, `jpeg` or `png` |
| `Filenames.LastSuffixDecides` | FishFeeder-ML/app.py:21 | for any prefix, `base + "." + ext` with dot-free `ext` is allowed exactly when `ext` lowercased is an allowed extension |
| `Filenames.TrailingDotRejected` | FishFeeder-ML/app.py:21 | a name ending in `.` is refused |
| `Filenames.SameDots` | FishFeeder-ML/app.py:21 | lowercasing moves no `.`: names that agree after lowercasing have the same length and their dots in the same places |
| `Filenames.CaseInsensitive` | FishFeeder-ML/app.py:21 | two names that agree after lowercasing are accepted or refused together |
| `Filenames.LowercaseDecides` | FishFeeder-ML/app.py:21 | a name is allowed exactly when its lowercase is |
| `Filenames.LastDotExamples` | FishFeeder-ML/app.py:21 | `photo.gif.jpg` is accepted and `photo.jpg.gif` is refused |
| `Filenames.CaseExamples` | FishFeeder-ML/app.py:21 | `X.JPG`, `x.Png` and `x.jpeg` are accepted |
| `Filenames.RejectionExamples` | FishFeeder-ML/app.py:21 | `photo.`, `photo.gif` and `photo` are refused |
| `Selection.ArgMax` | FishFeeder-ML/app.py:58 | `np.argmax`: an index whose score is at least every score, with every earlier score strictly smaller (first occurrence) |
| `Selection.Max` | FishFeeder-ML/app.py:59 | `np.max`: a score of the list that is at least every score |
| `Selection.MaxAtArgMax` | FishFeeder-ML/app.py:58-59 | the confidence (`np.max`) is the score at the argmax |
| `Selection.ArgMaxUnique` | FishFeeder-ML/app.py:58 | the first-maximum properties pin the index down: any index that has them is the argmax |
| `Selection.SelectLabel` | FishFeeder-ML/app.py:58-59 | empty scores raise numpy's argmax error; an argmax past the labels raises `IndexError`; otherwise the result is `labels[i]` at the first maximal index `i`, with confidence `scores[i]` at least every score |
| `Selection.MatchingLabelsSelect` | FishFeeder-ML/app.py:15-16 | with one label per score, selection succeeds and the label is one of the loaded labels |
| `Selection.TieGoesToFirst` | FishFeeder-ML/app.py:58 | example: `[0.25, 0.5, 0.5]` gives index 1, the first of the two equal best scores (the general rule is `ArgMax`'s first-occurrence `ensures`) |
| `Service.JoinPath` | FishFeeder-ML/app.py:45 | `os.path.join`: the result ends with the name; an absolute name replaces the directory; otherwise the directory comes before the name, with a `/` added exactly when the directory is non-empty and does not already end in `/` |
| `Service.TmpPath` | FishFeeder-ML/app.py:45 | no contract; `os.path.join('/tmp', name)`, characterised by `TmpPathRelative`, `TmpPathInjective` and `AbsoluteNameLeavesTmp` |
| `Service.TmpPathRelative` | FishFeeder-ML/app.py:45 | a relative name is saved at `/tmp/<name>` |
| `Service.TmpPathInjective` | FishFeeder-ML/app.py:45 | two different relative names never share a temporary path |
| `Service.AbsoluteNameLeavesTmp` | FishFeeder-ML/app.py:44-45 | example: `/etc/passwd` joined to `/tmp` is `/etc/passwd`, which is why the name is sanitised first (the general rule is `JoinPath`'s second `ensures`) |
| `Service.RemoveTwice` | FishFeeder-ML/app.py:54 | helper: taking a path out of the directory map twice is taking it out once |
| `Service.RemoveAfterSave` | FishFeeder-ML/app.py:45-54 | saving a file and then removing it leaves every other path of the directory as it was |
| `Service.Rejected` | FishFeeder-ML/app.py:34-42 | no contract; the three 400 conditions (no `image` part, empty filename, disallowed extension), used by `Predict` |
| `Service.Predictor.constructor` | FishFeeder-ML/app.py:12-16 | the handler starts with the given labels, model, decoder and sanitiser, the given temporary directory and an empty call log |
| `Service.Predictor.Predict` | FishFeeder-ML/app.py:32-42 | missing `image` gives 400 before the filename is checked, an empty filename gives 400 before the extension is checked, and a disallowed extension gives 400; each 400 leaves the temporary directory and the call log unchanged; only rejected requests get 400, and accepted ones behave as `Handled` says; every answer is 200, 400 or 500, and a 200 follows save, preprocess, remove, infer in that order, leaves the directory as it was without the saved path and carries one of the loaded labels |
| `Service.Predictor.FilePath` | FishFeeder-ML/app.py:44-45 | no contract; the sanitised name joined to `/tmp`, the one path every later step uses |
| `Service.Predictor.SaveFailedPath` | FishFeeder-ML/app.py:48-67 | no contract; a raising `file.save` gives 500 with its message, leaves the directory as it was and logs only the save |
| `Service.Predictor.PreprocessFailedPath` | FishFeeder-ML/app.py:48-67 | no contract; a raising `preprocess_image` gives 500 with its message and leaves the saved file in the directory |
| `Service.Predictor.RemoveFailedPath` | FishFeeder-ML/app.py:51-67 | no contract; a raising `os.remove` gives 500 with its message, keeps the saved file and never runs the model |
| `Service.Predictor.ModelRanPath` | FishFeeder-ML/app.py:54-62 | no contract; the file is removed before `model.predict` runs, and the answer is the model's error or `SelectLabel`'s result |
| `Service.Predictor.Handled` | FishFeeder-ML/app.py:43-67 | no contract; the conjunction of the four outcomes below (save failed, preprocessing failed, remove failed, model ran), each fixing the answer, the new directory and the new call log |
| `Service.Predictor.SaveAndPredict` | FishFeeder-ML/app.py:43-67 | a save error gives 500 and nothing more is tried; a preprocessing error gives 500 and leaves the saved file; a remove error gives 500 and the model never runs; otherwise the file is removed before the model runs, and a model or selection error gives 500 while a success gives 200 with `SelectLabel`'s label and confidence |
| `Service.Predictor.HandledAnswers` | FishFeeder-ML/app.py:43-67 | an accepted request gets 200 or 500; a 200 comes after save, preprocess, remove and infer in that order, leaves the directory as it was without the saved path, and names one of the loaded labels |
| `Service.Predictor.AnswerDetermined` | FishFeeder-ML/app.py:43-67 | two runs on the same request with the same filesystem outcomes give the same answer, whatever the state before each |
| `Service.RepeatRequest` | FishFeeder-ML/app.py:32-67 | the same request sent twice while the filesystem cooperates gets the same answer; a rejected request leaves the directory and the call log unchanged; for an accepted request, when preprocessing raises the directory holds the request's bytes at the saved path (the second save overwrites the first) and the log gains save, preprocess twice over; otherwise the directory is the old one without the saved path and the log gains save, preprocess, remove, infer twice over, whether the model and selection succeed or fail |

## Left out

- Flask routing, multipart parsing, `jsonify` and `app.run` (lines 1, 9, 31, 69-70) belong to the framework. A request is reduced to whether an `image` part exists, its filename and its bytes. A response is reduced to a status code and the fields of its JSON body.
- Loading `model.h5` and reading `Label.txt` (lines 12, 15-16) are file I/O. The model and the label list are constructor arguments.
- `preprocess_image` (lines 23-29) uses PIL and numpy in floating point. It is modelled only as a function from the saved bytes to either pixels or an exception message.
- `model.predict` (line 57) is an opaque foreign object. It is a function from pixels to either scores or an exception message. The model's batch dimension is reduced to the one image's score list. This means `np.argmax` over the flattened `(1, N)` array is `ArgMax` over the N scores.
- `secure_filename` (line 44) is werkzeug code that is not part of this model. It is an arbitrary `string -> string`. `TmpPathRelative` and `TmpPathInjective` hold only for the relative names it is meant to produce.
- `Selection.SelectLabel`: scores are reals, not 32-bit floats. NaN and rounding in `float(np.max(...))` are not modelled. The promise that confidence lies between 0 and 1 comes from the trained model and is not stated.
- `Filenames.LowerChar`, `Filenames.ToLower`: `str.lower` is modelled as ASCII case folding only. Other Unicode letters are left as they are, and the length is always kept, though Python's `'İ'.lower()` has two characters. This does not change `allowed_file`'s result. Unicode lowercasing sends no non-ASCII character to the letters of `jpg`, `jpeg` or `png`, so no other character can complete an allowed extension.
- `Service.Predictor.SaveAndPredict`, `Service.Predictor.SaveFailedPath`: a `file.save` that raises is taken to leave the temporary directory unchanged. A partly written file is not modelled. A `file.save` to `/tmp/` itself, for an empty sanitised name, is one such failure, and its outcome is left to the caller.
- Exceptions raised while reading `request.files` itself fall under the same `except` clause (line 66). They are not modelled.
- Two requests that race on the same `/tmp` path run concurrently, so they are outside this sequential model.
