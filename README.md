# ImageToOSD conversion core in Dafny

ImageToOSD turns a still image into C++ source for a CTRPluginFramework plugin. The plugin draws the image on the top screen (400×240) or the bottom screen (320×240) of a 3DS. This project models the conversion pipeline of `convert` and proves properties of it:

- **Sizing.** The requested width and height are defaulted from the source image. An optional resize to the request is issued when the request fits the screen. An automatic resize to the full screen follows when the source or the request is too large, and it overrides the optional one (`Sizing`, `Convert.FitToScreen`).
- **Position.** `calc_position` centres the image with floor division. A non-zero user `x` or `y` replaces the centred value (`Position`).
- **Channel split.** The RGB pixel list becomes three parallel channel lists (`Channels.SplitChannels`).
- **Code emission.** `generate_code` fills a fixed C++ template with the screen flag, `x`, `y`, `width`, `height` and the three channel arrays. The arrays are rendered as `str(list)[1:-1].replace(" ", "")` (`Emit`, which builds on `Decimal` and `Text`). A reader, `Emit.ReadArtifact`, recovers every literal from the emitted text. `DrawLoop` models what the emitted `yy`/`xx`/`nap` loop does when it runs.

`Convert.Convert` chains these steps in the order the converter runs them. The image library is not modelled. The source size is an input, and it is absent when the file does not exist. The resizes are returned as a log of target sizes. The pixels of the resized image are an input.

Python's optional integers (`None`, or an `int` where `0` is falsy) are modelled as `Option<int>`. `Screen.OrDefault` is `v if v else d`.

### Two consequences of the code's order

The drawing position is computed on the image size after the automatic resize (main.py:185), not on the source size. So a 500×100 top-screen source is resized to 400×240 and drawn at `(0, 0)` (`Position.WideSourceExample`).

`width`/`height` are defaulted from the source (main.py:162-163) before `any((width, height))` is tested (main.py:169). So a fitting source with no request is still resized once, to its own size (`Sizing.FittingSourceResizedToItself`).

## Model

| member | source | states |
|---|---|---|
| Sizing.Decide | main.py:162-182 | The reference sizing policy: a resize to the defaulted request when it fits and is not all zero, then a resize to the bound when the source or the request is oversized; the final size is the last resize's, or the source's. Its meaning is stated by `Sizing.OversizedGivesBound`, `Sizing.FittingGivesRequest`, `Sizing.ResizeOrder` and `Sizing.FinalWithinScreen`, and `Convert.FitToScreen` is proved equal to it |
| Position.Place | main.py:185-187 | The default position on the final size, with a non-zero `x`/`y` in its place; stated by `Position.OverrideOnlyWhenNonZero` and `Position.DefaultPositionOnScreen` |
| Decimal.IntToString | main.py:95-98 | Python's `str(int)`: a non-empty string of digits and a leading `-` exactly for negative numbers; `Decimal.IntToStringRoundTrip` shows it is read back exactly |
| Emit.ChannelBody | main.py:100-102 | `str(list)[1:-1].replace(" ", "")` written as the source does it; its meaning is stated by `Emit.ChannelBodyIsCommaJoin` and `Emit.ChannelBodyRoundTrip` |
| Emit.GenerateCode | main.py:84-115 | The exact template with the flag, `x`, `y`, `width`, `height` and the three channel bodies spliced in; its meaning is stated by `Emit.ReadArtifactRoundTrip` and `Emit.GenerateCodeInjective` |
| Convert.Convert | main.py:158-197 | A missing image size fails. Otherwise the resize log and final size are those of the sizing policy `Decide`, the position is the centred or overridden one computed on the final size, the channels are the components of the pixels, and the code is the template filled with exactly these values |
| Convert.FitToScreen | main.py:159-182 | The step-by-step resizing issues exactly the resizes of `Decide`, in its order, and ends at its final size; afterwards the request equals the image size, so lines 190-191 change nothing |
| Convert.Layout | main.py:158-191 | Resizes, final size and drawing position agree with `Decide` and `Place` |
| Sizing.OversizedGivesBound | main.py:165-182 | If the source or the defaulted request exceeds the screen, the final size is exactly the screen bound and the last resize is to the bound |
| Sizing.FittingGivesRequest | main.py:162-174 | If neither exceeds the screen, the final size is the request with a missing or zero dimension taken from the source |
| Sizing.ResizeOrder | main.py:169-182 | At most two resizes are issued. A fitting, not-all-zero request is resized to first, whether or not anything was requested. No resize happens only for a fitting, zero-sized source |
| Sizing.FinalWithinScreen | main.py:165-182 | A positive source with absent or positive requests gets a positive final size within 400 (top) or 320 (bottom) by 240 |
| Sizing.FittingSourceResizedToItself | main.py:162-174 | With nothing requested, a fitting source is still resized once, to its own size |
| Sizing.OversizedSourceFittingRequest | main.py:165-182 | An oversized source with a fitting request gets two resizes: to the request, then to the bound |
| Sizing.OversizedSourceIgnoresRequest | main.py:177-182 | For an oversized source, the final size does not depend on the request |
| Position.CalcPosition | main.py:77-81 | Floor-division centring: the right (bottom) margin equals the left (top) one or exceeds it by one. The position is non-negative and the image stays on screen when it fits |
| Position.OverrideOnlyWhenNonZero | main.py:185-187 | A supplied `x` or `y` replaces the centred value exactly when it is non-zero; a supplied 0 acts as absent |
| Position.DefaultPositionOnScreen | main.py:165-187 | For positive inputs, the default position places the finally sized image wholly on the screen |
| Position.CentredExamples | main.py:77-81 | A 100×50 image is placed at (150, 95) on the top screen and at (110, 95) on the bottom screen |
| Position.WideSourceExample | main.py:158-187 | A 500×100 top-screen source is resized once, to 400×240, and drawn at (0, 0) |
| Channels.SplitChannels | main.py:58-65 | The three lists have the length of the pixel list, `r[i]`, `g[i]`, `b[i]` are components 0, 1, 2 of pixel `i`, and merging them gives the pixels back |
| Decimal.IntToStringRoundTrip | main.py:95-98 | Parsing the rendering `str(n)` of an integer gives `n` back |
| Decimal.IntToStringInjective | main.py:95-98 | Distinct integers have distinct renderings |
| Text.SplitJoin | main.py:100-102 | Splitting a one-character join on that character gives the pieces back when no piece contains it |
| Text.RemoveSpacesOfJoin | main.py:100-102 | Removing the spaces of a `", "` join of space-free pieces gives their `","` join |
| Emit.ChannelBodyIsCommaJoin | main.py:100-102 | `str(list)[1:-1].replace(" ", "")` is the decimal values joined by commas with no spaces. It is empty exactly for an empty list and has no `}` |
| Emit.ChannelBodyRoundTrip | main.py:100-102 | Splitting a channel body on commas and parsing the pieces gives the channel back; an empty body is an empty channel |
| Emit.ReadArtifactRoundTrip | main.py:84-115 | Reading the emitted source recovers the flag (`true` exactly for the bottom screen), `x`, `y`, `width`, `height` and the three channels |
| Emit.GenerateCodeInjective | main.py:84-115 | Different inputs never produce the same source text |
| DrawLoop.DrawImage | main.py:104-111 | The emitted loop makes `width*height` steps when both dimensions are positive and none otherwise. Step `k` uses counter `nap == k == yy*width + xx` with `xx`, `yy` in range and draws `(r[k], g[k], b[k], 255)` at `(x+xx, y+yy)`. Every position of the grid is visited, so every index below `width*height` is used exactly once, in row-major order |
| DrawLoop.RowMajorIndexUnique | main.py:106-109 | Distinct loop positions give distinct counter values |
| DrawLoop.DrawSplitImage | main.py:100-111 | Run over buffers split from a row-major pixel list with one entry per loop step, the loop draws pixel `yy*width + xx` at `(x+xx, y+yy)`, opaque |

## Left out

- Image library calls (`Image.open`, `resize`, `save`, `convert("RGB")`, `getdata`, `img.size`, main.py:29-31, 41-44, 54-56). They are a foreign library. The size and the pixel triples are inputs, and each resize is recorded as its target size, with no resampling modelled.
- The destructive overwrite of the image file by each resize, and the order of file reads and writes it imposes. The pixels passed to `Convert.Convert` stand for the file as it is after the resizes.
- `output` (main.py:118-154): directory removal, creation and file writes of fixed boilerplate. This is pure filesystem I/O.
- `main`, argparse, the `g_silent` flag and the `print` wrapper (main.py:14-22, 203-222). These are command-line and logging plumbing.
- The `os.path.exists` checks and the `except: sys.exit(1)` paths (main.py:27-34, 39-47, 52-74). These are process termination. The one modelled effect is that `get_image_size` returns `None` for a missing file, so `convert` cannot go on; `Convert.Convert` returns `Failure(NoImageSize)`.
- Negative requested sizes, which the image library would reject. The model accepts any integer. The bound and positivity properties assume absent or non-negative requests and a positive source size.
- Channel values are unbounded integers. The C++ `u8` arrays would narrow values above 255, but the image library only yields 0-255. The C++ `int` range of the emitted geometry is not modelled either.
- DrawLoop.DrawImage: requires channel arrays with at least as many entries as the loop makes steps. Shorter arrays would make the emitted C++ read out of bounds, which is undefined behaviour. `convert` never emits shorter arrays, because the pixel list of the resized image has `width*height` entries.
- The converter writes the oversize test as `(400 < w and not is_bottom) or (320 < w and is_bottom) or 240 < h` (main.py:165-166). The model states it once, as `Sizing.Oversized` over `Screen.BoundWidth`, which is the same condition.
