/** The format dispatch and the post-processing shared by
    `get_librosa_melspectrogram` and `get_librosa_mfcc` (utils/feature.py).

    Reading the audio and librosa's signal processing are not modelled: the
    feature matrix librosa returns, of shape (features, frames), is a
    parameter `spectrum`. */
module Extraction {
  import opened Matrices
  import opened Outcomes

  /** The audio formats the extractors accept. */
  datatype Format = Pcm | Wav

  function FormatName(f: Format): string {
    match f
    case Pcm => "pcm"
    case Wav => "wav"
  }

  /** `if format == 'pcm': … elif format == 'wav': … else: raise ValueError`. */
  function ParseFormat(name: string): (r: Result<Format>)
    ensures r.Ok? <==> name == "pcm" || name == "wav"
    ensures r.Ok? ==> FormatName(r.value) == name
    ensures r.Err? ==> r.error == InvalidFormat
  {
    if name == "pcm" then Ok(Pcm)
    else if name == "wav" then Ok(Wav)
    else Err(InvalidFormat)
  }

  lemma FormatRoundTrip(f: Format)
    ensures ParseFormat(FormatName(f)) == Ok(f)
  {
    match f
    case Pcm =>
    case Wav =>
      assert FormatName(f) != "pcm" by { assert FormatName(f)[0] == 'w'; }
  }

  /** `feat[:, ::-1]`: every feature row read from the last frame to the first. */
  function ReverseTime(feat: Matrix): (r: Matrix)
    ensures |r| == |feat| && forall j :: 0 <= j < |feat| ==> |r[j]| == |feat[j]|
    ensures forall j, k :: 0 <= j < |feat| && 0 <= k < |feat[j]| ==> r[j][k] == feat[j][|feat[j]| - 1 - k]
  {
    seq(|feat|, j requires 0 <= j < |feat| => Reversed(feat[j]))
  }

  /** `np.swapaxes(feat, 0, 1)` on a matrix with `cols` columns. */
  function SwapAxes(m: Matrix, cols: nat): (r: Matrix)
    requires Shaped(m, |m|, cols)
    ensures Shaped(r, cols, |m|)
    ensures forall i, j :: 0 <= i < cols && 0 <= j < |m| ==> r[i][j] == m[j][i]
  {
    seq(cols, i requires 0 <= i < cols => seq(|m|, j requires 0 <= j < |m| => m[j][i]))
  }

  /** The frame of the librosa output that becomes output frame `i`. */
  function SourceFrame(nFrames: nat, inputReverse: bool, i: nat): nat
    requires i < nFrames
  {
    if inputReverse then nFrames - 1 - i else i
  }

  /** Lines 67-70 (and 117-120): the optional time reversal followed by the
      transposition from (features, frames) to (frames, features). */
  function PostProcess(feat: Matrix, nFrames: nat, inputReverse: bool): (r: Matrix)
    requires Shaped(feat, |feat|, nFrames)
    ensures Shaped(r, nFrames, |feat|)
    ensures forall i, j :: 0 <= i < nFrames && 0 <= j < |feat| ==>
              r[i][j] == feat[j][SourceFrame(nFrames, inputReverse, i)]
  {
    var timed := if inputReverse then ReverseTime(feat) else feat;
    SwapAxes(timed, nFrames)
  }

  /** Output frame `i` with `input_reverse` is output frame
      `n_frames - 1 - i` without it. */
  lemma ReversedFrameAt(feat: Matrix, nFrames: nat, i: nat)
    requires Shaped(feat, |feat|, nFrames) && i < nFrames
    ensures PostProcess(feat, nFrames, true)[i] == PostProcess(feat, nFrames, false)[nFrames - 1 - i]
  {
    var reversed := PostProcess(feat, nFrames, true)[i];
    var plain := PostProcess(feat, nFrames, false)[nFrames - 1 - i];
    forall j | 0 <= j < |feat| ensures reversed[j] == plain[j] {
      assert reversed[j] == feat[j][nFrames - 1 - i];
    }
  }

  /** With `input_reverse` the frames come out in reverse order; the
      features inside each frame are not reordered. */
  lemma ReverseReversesFrames(feat: Matrix, nFrames: nat)
    requires Shaped(feat, |feat|, nFrames)
    ensures PostProcess(feat, nFrames, true) == Reversed(PostProcess(feat, nFrames, false))
  {
    var plain := PostProcess(feat, nFrames, false);
    forall i | 0 <= i < nFrames ensures PostProcess(feat, nFrames, true)[i] == Reversed(plain)[i] {
      ReversedFrameAt(feat, nFrames, i);
    }
  }

  /** Undoes the post-processing of a (frames, features) result. */
  function Unprocess(out: Matrix, nFeat: nat, inputReverse: bool): (r: Matrix)
    requires Shaped(out, |out|, nFeat)
  {
    var swapped := SwapAxes(out, nFeat);
    if inputReverse then ReverseTime(swapped) else swapped
  }

  /** Swapping the axes twice gives back the matrix. */
  lemma SwapAxesTwice(m: Matrix, cols: nat)
    requires Shaped(m, |m|, cols)
    ensures SwapAxes(SwapAxes(m, cols), |m|) == m
  {
    var back := SwapAxes(SwapAxes(m, cols), |m|);
    forall j | 0 <= j < |m| ensures back[j] == m[j] {
      forall k | 0 <= k < cols ensures back[j][k] == m[j][k] {
        assert back[j][k] == SwapAxes(m, cols)[k][j];
      }
    }
  }

  /** Reversing time twice gives back the matrix. */
  lemma ReverseTimeTwice(m: Matrix)
    ensures ReverseTime(ReverseTime(m)) == m
  {
    var back := ReverseTime(ReverseTime(m));
    forall j | 0 <= j < |m| ensures back[j] == m[j] {
      forall k | 0 <= k < |m[j]| ensures back[j][k] == m[j][k] {
        assert back[j][k] == ReverseTime(m)[j][|m[j]| - 1 - k];
      }
    }
  }

  /** The post-processing loses nothing: the librosa output is recovered
      from the returned features. */
  lemma PostProcessRoundTrip(feat: Matrix, nFrames: nat, inputReverse: bool)
    requires Shaped(feat, |feat|, nFrames)
    ensures Unprocess(PostProcess(feat, nFrames, inputReverse), |feat|, inputReverse) == feat
  {
    var timed := if inputReverse then ReverseTime(feat) else feat;
    assert Shaped(timed, |feat|, nFrames);
    SwapAxesTwice(timed, nFrames);
    if inputReverse {
      ReverseTimeTwice(feat);
    }
  }

  /** Which extractor runs: `get_librosa_melspectrogram` with `n_mels`
      bands (128 by default), or `get_librosa_mfcc` with `n_mfcc`
      coefficients (33 by default). */
  datatype Extractor = MelSpectrogram(nMels: nat := 128) | Mfcc(nMfcc: nat := 33)

  /** The number of features per frame the caller asks for. */
  function FeatureCount(kind: Extractor): (r: nat)
    ensures kind.MelSpectrogram? ==> r == kind.nMels
    ensures kind.Mfcc? ==> r == kind.nMfcc
  {
    match kind
    case MelSpectrogram(nMels) => nMels
    case Mfcc(nMfcc) => nMfcc
  }

  /** The number of features per frame as the source computes it: line 116
      passes the constant 33 to `librosa.feature.mfcc`, whatever `n_mfcc`
      the caller gave.  It agrees with the request only for mel
      spectrograms and for the default `n_mfcc == 33`. */
  function FeatureCountAsWritten(kind: Extractor): (r: nat)
    ensures r == FeatureCount(kind) <==> kind.MelSpectrogram? || kind.nMfcc == 33
  {
    match kind
    case MelSpectrogram(nMels) => nMels
    case Mfcc(_) => 33
  }

  /** As written, a caller asking for any `n != 33` coefficients gets 33. */
  lemma MfccCountIgnoresArgument(n: nat)
    requires n != 33
    ensures FeatureCountAsWritten(Mfcc(n)) == 33 != FeatureCount(Mfcc(n))
  {
  }

  /** Either extractor once librosa has produced `spectrum`, its
      (features, frames) matrix (the mel spectrogram, in dB when
      `mel_type == 'log_mel'`, or the MFCCs), with the source's defaults
      `input_reverse = True` and `format = 'pcm'`.  The feature count is
      the intended one, `FeatureCount(kind)`; see `FeatureCountAsWritten`. */
  function Extract(kind: Extractor, spectrum: Matrix, nFrames: nat,
                   inputReverse: bool := true, format: string := "pcm"): (r: Result<Matrix>)
    requires Shaped(spectrum, FeatureCount(kind), nFrames)
    ensures r.Err? <==> format != "pcm" && format != "wav"
    ensures r.Err? ==> r.error == InvalidFormat
    ensures r.Ok? ==> Shaped(r.value, nFrames, FeatureCount(kind))
    ensures r.Ok? ==> forall i, j :: 0 <= i < nFrames && 0 <= j < FeatureCount(kind) ==>
              r.value[i][j] == spectrum[j][SourceFrame(nFrames, inputReverse, i)]
  {
    match ParseFormat(format)
    case Err(e) => Err(e)
    case Ok(_) => Ok(PostProcess(spectrum, nFrames, inputReverse))
  }
}
