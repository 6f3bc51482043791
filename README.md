# KoSpeech feature utilities in Dafny

This project models the logic that `utils/feature.py` of KoSpeech defines itself:

- `spec_augment`, SpecAugment-style data augmentation. It zeroes
  `time_mask_num` bands of whole time frames (rows) and then `freq_mask_num`
  bands of whole feature channels (columns) of a `(seq_len, feat_size)`
  tensor, in place, and returns the same tensor.
- The post-processing and format dispatch of the two feature extractors
  `get_librosa_melspectrogram` and `get_librosa_mfcc`. A `format` other than
  `'pcm'` or `'wav'` raises `ValueError`. The `(features, frames)` matrix
  librosa returns is optionally reversed in time (`input_reverse`) and then
  transposed to `(frames, features)`.

Files:

- `outcomes.dfy` (module `Outcomes`): the error kinds and a `Result` type.
- `matrices.dfy` (module `Matrices`): matrices as sequences of rows, the
  contents of a 2-D array as such a matrix, and cell-wise equality.
- `spec_augment.dfy` (module `SpecAugment`): the masking, specified on matrix
  values, and implemented as methods over an `array2<real>` updated in place.
- `extraction.dfy` (module `Extraction`): the format dispatch and the
  reverse-then-transpose post-processing, as functions.

The random draws are inputs. Each band is a `Band(width, offset)`:

- `width` is what `int(np.random.uniform(0, T))` gave, so `0 <= width <= T`.
- `offset` is what `random.randint(0, axis - width)` gave, so
  `offset + width <= axis` whenever `width <= axis`.

When `width > axis`, `randint` gets an empty range and raises `ValueError`.
The model returns `Err(EmptyRange)` in that case. The tensor keeps the bands
written before the failing draw, because the original writes in place before
it raises. Both the empty-range error and the bad-format error are
`ValueError`s in Python. The model gives them separate names (`EmptyRange`,
`InvalidFormat`).

## Model

| member | source | states |
|---|---|---|
| `SpecAugment.ZeroRows` | utils/feature.py:148 | `feat[t0 : t0 + t, :] = 0` on values: a cell whose row is in the band becomes 0, every other cell keeps its value, and the shape is kept |
| `SpecAugment.ZeroCols` | utils/feature.py:155 | `feat[:, f0 : f0 + f] = 0` on values: a cell whose column is in the band becomes 0, every other cell keeps its value, and the shape is kept |
| `SpecAugment.TimeMasked` | utils/feature.py:144-148 | applying time bands one after another keeps the number of rows and the length of every row |
| `SpecAugment.FreqMasked` | utils/feature.py:151-155 | applying frequency bands one after another keeps the number of rows and the length of every row |
| `SpecAugment.FirstTooWide` | utils/feature.py:147 | the index of the first band wider than its axis (where `randint` raises): every earlier band fits, and the band at that index, if any, does not |
| `SpecAugment.Augmented` | utils/feature.py:140-157 | the contents of `feat` after the call returns or raises; it has the input's shape `(seq_len, feat_size)` either way |
| `SpecAugment.TimeMaskedCell` | utils/feature.py:144-148 | after the time bands, a cell whose row lies in some band `t0 <= r < t0 + t` is 0, across all columns; every other cell keeps its value |
| `SpecAugment.FreqMaskedCell` | utils/feature.py:151-155 | after the frequency bands, a cell whose column lies in some band `f0 <= c < f0 + f` is 0, across all rows; every other cell keeps its value |
| `SpecAugment.AugmentedCell` | utils/feature.py:144-157 | when no draw raises, a cell whose row is in a time band or whose column is in a frequency band is 0; a cell outside every band keeps its original value |
| `SpecAugment.AugmentedCellOnTimeRaise` | utils/feature.py:144-148 | when the k-th time draw is wider than `seq_len`, cells in the rows of the k earlier time bands are 0, every other cell keeps its value, and no frequency band is applied |
| `SpecAugment.AugmentedCellOnFreqRaise` | utils/feature.py:151-155 | when the k-th frequency draw is wider than `feat_size`, cells in a time band or in one of the k earlier frequency bands are 0, and every other cell keeps its value |
| `SpecAugment.ZeroWidthIdentity` | utils/feature.py:144-155 | bands of width 0 raise nothing and leave the matrix unchanged; with both counts 0 the output equals the input |
| `SpecAugment.TimeFreqCommute` | utils/feature.py:144-155 | masking time then frequency gives the same matrix as frequency then time |
| `SpecAugment.AugmentedIdempotent` | utils/feature.py:144-157 | running the augmentation again with the same draws changes nothing more, whether or not a draw raises |
| `SpecAugment.ZeroRowBand` | utils/feature.py:148 | the in-place slice assignment `feat[t0 : t0 + t, :] = 0` on an in-bounds band leaves the array holding `ZeroRows` of its old contents |
| `SpecAugment.ZeroColBand` | utils/feature.py:155 | the in-place slice assignment `feat[:, f0 : f0 + f] = 0` on an in-bounds band leaves the array holding `ZeroCols` of its old contents |
| `SpecAugment.MaskTime` | utils/feature.py:144-148 | the time loop applies the bands in order and stops at the first one wider than `seq_len`; it reports whether every band was applied |
| `SpecAugment.MaskFreq` | utils/feature.py:151-155 | the frequency loop applies the bands in order and stops at the first one wider than `feat_size`; it reports whether every band was applied |
| `SpecAugment.Run` | utils/feature.py:122-157 | with the source's defaults `T=70, F=20, time_mask_num=2, freq_mask_num=2`, exactly `RangeLength(time_mask_num)` time bands and `RangeLength(freq_mask_num)` frequency bands are drawn (none for a negative count), each in the range the code draws from; the tensor afterwards holds `Augmented` of its old contents; the result is the same tensor, or `EmptyRange` if and only if some band is wider than its axis |
| `Extraction.ParseFormat` | utils/feature.py:47-57 | a format is accepted if and only if it is `'pcm'` or `'wav'`, and then it names the accepted format; any other format is `InvalidFormat` |
| `Extraction.FormatRoundTrip` | utils/feature.py:47-57 | parsing the name of a format gives back that format |
| `Extraction.ReverseTime` | utils/feature.py:67-68 | `feat[:, ::-1]` keeps the shape and puts frame `|row| - 1 - k` of every feature row at position `k` |
| `Extraction.ReverseTimeTwice` | utils/feature.py:67-68 | reversing time twice gives back the matrix |
| `Extraction.SwapAxes` | utils/feature.py:70 | `swapaxes(feat, 0, 1)` turns a `(rows, cols)` matrix into a `(cols, rows)` one with cell `[i][j]` equal to the source's `[j][i]` |
| `Extraction.SwapAxesTwice` | utils/feature.py:70 | swapping the axes twice gives back the matrix |
| `Extraction.PostProcess` | utils/feature.py:67-70 | the result is `(n_frames, features)` and frame `i`, feature `j` is source `feat[j][n_frames-1-i]` with `input_reverse`, and `feat[j][i]` without |
| `Extraction.ReversedFrameAt` | utils/feature.py:67-70 | output frame `i` with `input_reverse` is output frame `n_frames-1-i` without it |
| `Extraction.ReverseReversesFrames` | utils/feature.py:67-70 | with `input_reverse` the output frames are those without it, in reverse order |
| `Extraction.PostProcessRoundTrip` | utils/feature.py:67-70 | the post-processing is invertible: the librosa output can be recovered from the result |
| `Extraction.FeatureCountAsWritten` | utils/feature.py:116 | the features per frame as the code computes them: `n_mels` for the mel spectrogram (line 63), the literal 33 for MFCCs; this agrees with the request if and only if it is a mel spectrogram or `n_mfcc == 33` |
| `Extraction.MfccCountIgnoresArgument` | utils/feature.py:116 | as written, a caller asking for any `n_mfcc != 33` coefficients gets 33 |
| `Extraction.Extract` | utils/feature.py:47-120 | for either extractor, with the defaults `input_reverse=True` and `format='pcm'`: an unknown format raises `InvalidFormat`, exactly when the format is neither `'pcm'` nor `'wav'`; otherwise the result is `(frames, FeatureCount(kind))`, i.e. `(frames, n_mels)` or `(frames, n_mfcc)` (defaults 128 and 33), frame `i` being source frame `n_frames-1-i` with `input_reverse` and `i` without (the `n_mfcc` width is the intended one, see Findings) |

## Left out

- Reading audio: `np.memmap` on a PCM file, `librosa.core.load` on a WAV file, and the path that logs a failed PCM read and returns `None`. This is file I/O.
- Silence removal (`librosa.effects.split`), `librosa.feature.melspectrogram`, `librosa.feature.mfcc` and `librosa.amplitude_to_db` (`mel_type == 'log_mel'`). These are library calls doing floating-point signal processing. Their output matrix is a parameter (`spectrum`) of `Extract`, so `del_silence` and `mel_type` do not appear.
- Conversion to `torch.FloatTensor` and `np.ascontiguousarray`. `torch.FloatTensor` turns the float64 features of the PCM path (lines 53, 63, 116) into float32, which rounds every value; that rounding is not modelled. Feature values are modelled as exact reals. `spec_augment` only writes 0 and otherwise keeps values, so it is unaffected.
- The random number generators and their distributions. The drawn widths and offsets are inputs that satisfy the ranges the code draws from.
- `SpecAugment.Run`: `T` and `F` are natural numbers. With a negative `T`, `np.random.uniform(0, T)` gives negative widths, and Python's slicing `feat[t0 : t0 + t]` would then zero an unintended run of rows (when `t0 + t < 0`), or none. That case is not modelled.
- The bands drawn after a raising draw never exist in the original. `SpecAugment.Run` still takes them as inputs, must find them in range, and ignores them.
- bin/model_architecture.py only builds and prints PyTorch modules defined elsewhere. It has no logic of its own. The encoder, attention, decoder and beam search it builds are not part of this model.

## Findings

| source | as written | input that shows it | evidently intended | confidence | as-written member | corrected member |
|---|---|---|---|---|---|---|
| utils/feature.py:116 | `get_librosa_mfcc` calls `librosa.feature.mfcc(..., n_mfcc = 33, ...)`, so its `n_mfcc` parameter is ignored | `get_librosa_mfcc(path, n_mfcc=40)` returns 33 coefficients per frame | pass the caller's `n_mfcc`, so the feature width equals the argument | medium, not executed | `Extraction.MfccCountIgnoresArgument` | `Extraction.Extract` |
