/**
 * The `/predict` handler of FishFeeder-ML/app.py: three validation checks in a fixed order,
 * then save the upload under the temporary directory, preprocess it, delete it, run the model
 * and pick the label; any exception on the way becomes a 500 carrying its message.
 */
module Service {
  import opened Outcomes
  import opened Filenames
  import opened Selection

  newtype Byte = b: int | 0 <= b < 256

  /** The preprocessed image batch handed to the model; its layout is not modelled. */
  type Pixels = seq<real>

  /** What the handler reads from the multipart request: whether an `image` part exists, its filename and its bytes. */
  datatype Request = Request(hasImage: bool, filename: string, content: seq<Byte>)

  /** The JSON body: `{"error": ...}` or `{"prediction": ..., "confidence": ...}`. */
  datatype Body = ErrorBody(error: string) | PredictionBody(prediction: string, confidence: real)

  datatype Response = Response(status: int, body: Body)

  /** The calls the handler makes to the world, in the order it makes them. */
  datatype Effect =
    | Save(path: string)        // file.save(filepath)
    | Preprocess(path: string)  // preprocess_image(filepath)
    | Remove(path: string)      // os.remove(filepath)
    | Infer                     // model.predict(img)

  const NoImagePartMessage: string := "No image part in the request"
  const NoSelectedFileMessage: string := "No selected image file"
  const InvalidFormatMessage: string := "Invalid file format. Supported formats: jpg, jpeg, png"

  /** The directory uploads are saved in. */
  const TmpDir: string := "/tmp"

  /** `os.path.join(dir, name)` for two components, as POSIX Python defines it. */
  function JoinPath(dir: string, name: string): (path: string)
    ensures |name| <= |path| && path[|path| - |name|..] == name
    ensures |name| > 0 && name[0] == '/' ==> path == name
    ensures (|name| == 0 || name[0] != '/') ==> path[..|path| - |name|] == dir || path[..|path| - |name|] == dir + "/"
    ensures (|name| == 0 || name[0] != '/') ==> (path[..|path| - |name|] == dir <==> (dir == "" || dir[|dir| - 1] == '/'))
  {
    if |name| > 0 && name[0] == '/' then name
    else if dir == "" || dir[|dir| - 1] == '/' then dir + name
    else dir + "/" + name
  }

  /** `os.path.join('/tmp', name)` */
  function TmpPath(name: string): string
  {
    JoinPath(TmpDir, name)
  }

  /** A relative name lands directly under /tmp. */
  lemma TmpPathRelative(name: string)
    requires |name| == 0 || name[0] != '/'
    ensures TmpPath(name) == "/tmp/" + name
  {
  }

  /** Distinct relative names never share a temporary path. */
  lemma TmpPathInjective(a: string, b: string)
    requires |a| == 0 || a[0] != '/'
    requires |b| == 0 || b[0] != '/'
    requires TmpPath(a) == TmpPath(b)
    ensures a == b
  {
    TmpPathRelative(a);
    TmpPathRelative(b);
    assert a == TmpPath(a)[5..];
    assert b == TmpPath(b)[5..];
  }

  /** An absolute name replaces the directory, so without sanitising the upload could land outside /tmp. */
  lemma AbsoluteNameLeavesTmp()
    ensures TmpPath("/etc/passwd") == "/etc/passwd"
  {
  }

  /** Deleting a file just written leaves the directory as it was without that path. */
  lemma RemoveAfterSave(files: map<string, seq<Byte>>, path: string, content: seq<Byte>)
    ensures files[path := content] - {path} == files - {path}
  {
  }

  /** The three client errors, checked in this order. */
  predicate Rejected(req: Request)
  {
    !req.hasImage || req.filename == "" || !AllowedFile(req.filename)
  }

  /**
   * The request handler with its process-lifetime constants and the state it changes:
   * the files under the temporary directory and the log of calls made.
   */
  class Predictor {
    /** The lines of Label.txt. */
    const labels: seq<string>
    /** werkzeug's `secure_filename`, not modelled. */
    const secure: string -> string
    /** `preprocess_image` applied to the bytes of the saved file; it raises on undecodable input. */
    const decode: seq<Byte> -> Attempt<Pixels>
    /** `model.predict`, the scores of the single image in the batch. */
    const model: Pixels -> Attempt<seq<real>>

    /** Files present in the temporary directory, by path. */
    var tmp: map<string, seq<Byte>>
    /** Every call to the filesystem, the decoder and the model so far. */
    var effects: seq<Effect>

    constructor (labels: seq<string>, secure: string -> string, decode: seq<Byte> -> Attempt<Pixels>,
                 model: Pixels -> Attempt<seq<real>>, tmp: map<string, seq<Byte>>)
      ensures this.labels == labels && this.secure == secure
      ensures this.decode == decode && this.model == model
      ensures this.tmp == tmp && effects == []
    {
      this.labels := labels;
      this.secure := secure;
      this.decode := decode;
      this.model := model;
      this.tmp := tmp;
      effects := [];
    }

    /** `filepath` of an accepted request. */
    function FilePath(req: Request): string
    {
      TmpPath(secure(req.filename))
    }

    /**
     * `predict()`. `save` and `remove` are what the filesystem does with `file.save` and
     * `os.remove` on this call: complete, or raise with a message.
     */
    method Predict(req: Request, save: Outcome, remove: Outcome) returns (resp: Response)
      modifies this
      // the checks, in order; a rejected request touches nothing
      ensures !req.hasImage ==> resp == Response(400, ErrorBody(NoImagePartMessage))
      ensures req.hasImage && req.filename == "" ==> resp == Response(400, ErrorBody(NoSelectedFileMessage))
      ensures req.hasImage && req.filename != "" && !AllowedFile(req.filename) ==>
        resp == Response(400, ErrorBody(InvalidFormatMessage))
      ensures Rejected(req) ==> tmp == old(tmp) && effects == old(effects)
      // an accepted request is handled by SaveAndPredict, which never answers 400
      ensures resp.status == 400 <==> Rejected(req)
      ensures !Rejected(req) ==> Handled(req, save, remove, old(tmp), old(effects), tmp, effects, resp)
      // every answer is 200, 400 or 500; a 200 leaves no file at the path it saved
      ensures resp.status in {200, 400, 500}
      ensures resp.status == 200 ==>
        && effects == old(effects) + [Save(FilePath(req))] + [Preprocess(FilePath(req))] + [Remove(FilePath(req))] + [Infer]
        && tmp == old(tmp) - {FilePath(req)}
        && FilePath(req) !in tmp
        && resp.body.PredictionBody?
        && resp.body.prediction in labels
    {
      if !req.hasImage {
        return Response(400, ErrorBody(NoImagePartMessage));
      }
      if req.filename == "" {
        return Response(400, ErrorBody(NoSelectedFileMessage));
      }
      // `file and ...`: a FileStorage is truthy exactly when its filename is non-empty
      if req.filename != "" && AllowedFile(req.filename) {
        ghost var tmp0, effects0 := tmp, effects;
        resp := SaveAndPredict(req, save, remove);
        HandledAnswers(req, save, remove, tmp0, effects0, tmp, effects, resp);
      } else {
        return Response(400, ErrorBody(InvalidFormatMessage));
      }
    }

    /** `file.save` raised: nothing else is attempted and the directory is as before. */
    ghost predicate SaveFailedPath(save: Outcome, path: string, tmp0: map<string, seq<Byte>>, effects0: seq<Effect>,
                                   tmp1: map<string, seq<Byte>>, effects1: seq<Effect>, resp: Response)
    {
      save.Failed? ==>
        && resp == Response(500, ErrorBody(save.message))
        && tmp1 == tmp0
        && effects1 == effects0 + [Save(path)]
    }

    /** `preprocess_image` raised: the saved file is left behind. */
    ghost predicate PreprocessFailedPath(req: Request, save: Outcome, path: string,
                                         tmp0: map<string, seq<Byte>>, effects0: seq<Effect>,
                                         tmp1: map<string, seq<Byte>>, effects1: seq<Effect>, resp: Response)
    {
      var img := decode(req.content);
      save.Done? && img.Raised? ==>
        && resp == Response(500, ErrorBody(img.message))
        && tmp1 == tmp0[path := req.content]
        && effects1 == effects0 + [Save(path)] + [Preprocess(path)]
    }

    /** `os.remove` raised: the saved file stays and the model is not run. */
    ghost predicate RemoveFailedPath(req: Request, save: Outcome, remove: Outcome, path: string,
                                     tmp0: map<string, seq<Byte>>, effects0: seq<Effect>,
                                     tmp1: map<string, seq<Byte>>, effects1: seq<Effect>, resp: Response)
    {
      var img := decode(req.content);
      save.Done? && img.Value? && remove.Failed? ==>
        && resp == Response(500, ErrorBody(remove.message))
        && tmp1 == tmp0[path := req.content]
        && effects1 == effects0 + [Save(path)] + [Preprocess(path)] + [Remove(path)]
    }

    /** The file was removed BEFORE the model ran; the answer is the model's, read off by SelectLabel. */
    ghost predicate ModelRanPath(req: Request, save: Outcome, remove: Outcome, path: string,
                                 tmp0: map<string, seq<Byte>>, effects0: seq<Effect>,
                                 tmp1: map<string, seq<Byte>>, effects1: seq<Effect>, resp: Response)
    {
      var img := decode(req.content);
      save.Done? && img.Value? && remove.Done? ==>
        && tmp1 == tmp0 - {path}
        && effects1 == effects0 + [Save(path)] + [Preprocess(path)] + [Remove(path)] + [Infer]
        && var inference := model(img.value);
           && (inference.Raised? ==> resp == Response(500, ErrorBody(inference.message)))
           && (inference.Value? ==>
                 var selected := SelectLabel(labels, inference.value);
                 && (selected.Raised? ==> resp == Response(500, ErrorBody(selected.message)))
                 && (selected.Value? ==>
                       resp == Response(200, PredictionBody(selected.value.prediction, selected.value.confidence))))
    }

    /**
     * What an accepted request leads to, given the state before it: the response, the files
     * left in the temporary directory and the calls made, one conjunct per path.
     */
    ghost predicate Handled(req: Request, save: Outcome, remove: Outcome,
                            tmp0: map<string, seq<Byte>>, effects0: seq<Effect>,
                            tmp1: map<string, seq<Byte>>, effects1: seq<Effect>, resp: Response)
    {
      var path := FilePath(req);
      && SaveFailedPath(save, path, tmp0, effects0, tmp1, effects1, resp)
      && PreprocessFailedPath(req, save, path, tmp0, effects0, tmp1, effects1, resp)
      && RemoveFailedPath(req, save, remove, path, tmp0, effects0, tmp1, effects1, resp)
      && ModelRanPath(req, save, remove, path, tmp0, effects0, tmp1, effects1, resp)
    }

    /** The answer depends only on the request and the filesystem's outcomes, not on the state before. */
    lemma AnswerDetermined(req: Request, save: Outcome, remove: Outcome,
                           tmp0: map<string, seq<Byte>>, effects0: seq<Effect>,
                           tmp1: map<string, seq<Byte>>, effects1: seq<Effect>, resp: Response,
                           tmp0': map<string, seq<Byte>>, effects0': seq<Effect>,
                           tmp1': map<string, seq<Byte>>, effects1': seq<Effect>, resp': Response)
      requires Handled(req, save, remove, tmp0, effects0, tmp1, effects1, resp)
      requires Handled(req, save, remove, tmp0', effects0', tmp1', effects1', resp')
      ensures resp == resp'
    {
    }

    /** Every answer to an accepted request is a success or a server error; a success leaves no file behind. */
    lemma HandledAnswers(req: Request, save: Outcome, remove: Outcome,
                         tmp0: map<string, seq<Byte>>, effects0: seq<Effect>,
                         tmp1: map<string, seq<Byte>>, effects1: seq<Effect>, resp: Response)
      requires Handled(req, save, remove, tmp0, effects0, tmp1, effects1, resp)
      ensures resp.status == 200 || resp.status == 500
      ensures resp.status == 200 ==>
        && effects1 == effects0 + [Save(FilePath(req))] + [Preprocess(FilePath(req))] + [Remove(FilePath(req))] + [Infer]
        && tmp1 == tmp0 - {FilePath(req)}
        && FilePath(req) !in tmp1
        && resp.body.PredictionBody?
        && resp.body.prediction in labels
    {
      // case split and witness index: without them the proof runs out of resource on some seeds
      var img := decode(req.content);
      if save.Done? && img.Value? && remove.Done? && model(img.value).Value? {
        var selected := SelectLabel(labels, model(img.value).value);
        if selected.Value? {
          var i := ArgMax(model(img.value).value);
          assert labels[i] in labels;
        }
      }
    }

    /** Lines 44-62 of `predict()` and its `except` clause, for a request that passed the checks. */
    method SaveAndPredict(req: Request, save: Outcome, remove: Outcome) returns (resp: Response)
      modifies this
      ensures Handled(req, save, remove, old(tmp), old(effects), tmp, effects, resp)
    {
      var filepath := TmpPath(secure(req.filename));
      ghost var tmp0, effects0 := tmp, effects;
      effects := effects + [Save(filepath)];
      if save.Failed? {
        resp := Response(500, ErrorBody(save.message));
        assert SaveFailedPath(save, filepath, tmp0, effects0, tmp, effects, resp);
        return;
      }
      tmp := tmp[filepath := req.content];
      effects := effects + [Preprocess(filepath)];
      var img := decode(tmp[filepath]);
      if img.Raised? {
        resp := Response(500, ErrorBody(img.message));
        assert PreprocessFailedPath(req, save, filepath, tmp0, effects0, tmp, effects, resp);
        return;
      }
      effects := effects + [Remove(filepath)];
      if remove.Failed? {
        resp := Response(500, ErrorBody(remove.message));
        assert RemoveFailedPath(req, save, remove, filepath, tmp0, effects0, tmp, effects, resp);
        return;
      }
      RemoveAfterSave(tmp0, filepath, req.content);
      tmp := tmp - {filepath};
      effects := effects + [Infer];
      var predictions := model(img.value);
      if predictions.Raised? {
        resp := Response(500, ErrorBody(predictions.message));
        assert ModelRanPath(req, save, remove, filepath, tmp0, effects0, tmp, effects, resp);
        return;
      }
      var selected := SelectLabel(labels, predictions.value);
      if selected.Raised? {
        resp := Response(500, ErrorBody(selected.message));
      } else {
        resp := Response(200, PredictionBody(selected.value.prediction, selected.value.confidence));
      }
      assert ModelRanPath(req, save, remove, filepath, tmp0, effects0, tmp, effects, resp);
    }
  }

  /** Removing a path twice is removing it once. */
  lemma RemoveTwice(files: map<string, seq<Byte>>, path: string)
    ensures files - {path} - {path} == files - {path}
  {
  }

  /**
   * The same request sent twice, with the filesystem cooperating, gets the same answer both
   * times; each successful call writes and deletes its own file.
   */
  method RepeatRequest(p: Predictor, req: Request) returns (first: Response, second: Response)
    modifies p
    ensures first == second
    ensures Rejected(req) ==> p.tmp == old(p.tmp) && p.effects == old(p.effects)
    ensures first.status == 200 ==> p.tmp == old(p.tmp) - {p.FilePath(req)}
    ensures first.status == 200 ==>
      p.effects == old(p.effects)
        + [Save(p.FilePath(req))] + [Preprocess(p.FilePath(req))] + [Remove(p.FilePath(req))] + [Infer]
        + [Save(p.FilePath(req))] + [Preprocess(p.FilePath(req))] + [Remove(p.FilePath(req))] + [Infer]
    ensures first.status == 200 ==> p.FilePath(req) !in p.tmp
    // an accepted request that fails in preprocessing leaves one file, overwritten by the second save
    ensures !Rejected(req) ==>
      p.tmp == (if p.decode(req.content).Raised? then old(p.tmp)[p.FilePath(req) := req.content]
                else old(p.tmp) - {p.FilePath(req)})
    ensures !Rejected(req) && p.decode(req.content).Raised? ==>
      p.effects == old(p.effects)
        + [Save(p.FilePath(req))] + [Preprocess(p.FilePath(req))]
        + [Save(p.FilePath(req))] + [Preprocess(p.FilePath(req))]
    ensures !Rejected(req) && p.decode(req.content).Value? ==>
      p.effects == old(p.effects)
        + [Save(p.FilePath(req))] + [Preprocess(p.FilePath(req))] + [Remove(p.FilePath(req))] + [Infer]
        + [Save(p.FilePath(req))] + [Preprocess(p.FilePath(req))] + [Remove(p.FilePath(req))] + [Infer]
  {
    ghost var tmp0, effects0 := p.tmp, p.effects;
    first := p.Predict(req, Done, Done);
    ghost var tmp1, effects1 := p.tmp, p.effects;
    second := p.Predict(req, Done, Done);
    if !Rejected(req) {
      p.AnswerDetermined(req, Done, Done, tmp0, effects0, tmp1, effects1, first, tmp1, effects1, p.tmp, p.effects, second);
      if p.decode(req.content).Value? {
        RemoveTwice(tmp0, p.FilePath(req));
      } else {
        assert tmp0[p.FilePath(req) := req.content][p.FilePath(req) := req.content] == tmp0[p.FilePath(req) := req.content];
      }
    }
  }
}
