# Weather dashboard end-to-end suite: input generators

This project models the two input generators of the weather dashboard's
browser test suite that carry logic of their own. Both live in `tests/utils.py`:

- `get_dynamic_days_order` gives the seven weekday abbreviations (`Mon` … `Sun`)
  rotated so that today's weekday comes first. The week forecast test expects the
  forecast table header to show exactly this order. In the model the weekday
  `today` (0 = Monday … 6 = Sunday, as `datetime.weekday()` numbers them) is a
  parameter (`Utils.DynamicDaysOrder`). The rotation `s[k:] + s[:k]` is the
  generic `Utils.RotateLeft`.
- `create_random_non_float(length)` keeps drawing `length` characters from
  letters, punctuation and digits. It returns the first candidate that is not a
  non-empty all-digit string once every `'.'` is removed. In the model:
  - the acceptance test is the predicate `Utils.IsNonFloat`, built from
    `Utils.StripDots` (`replace('.', '')`) and `Utils.IsDigits` (`isdigit()`);
  - each call of `random.choices` is a draw, given as the alphabet positions it
    picked (`Utils.IsDraw`, `Utils.Spell`);
  - the retry loop is the method `Utils.CreateRandomNonFloat`. It scans the
    supplied draws and returns the first accepted candidate. Its specification
    function is `Utils.FirstNonFloat` over `Utils.Candidates`.

The acceptance test's quirks are kept and proved:
- a candidate of decimal points only, the empty one included, is accepted, because `''.isdigit()` is false;
- `"1.2.3"` is rejected although it is not a decimal number;
- the test is not a float parser: a sign followed by digits and dots is accepted (`Utils.SignedNumeralAccepted`), although many such strings read as numbers, so `"+000000045"`, which reads as 45.0, a valid coordinate, can be generated (`Utils.InRangeNumeralAccepted`).

The module `Wrappers` holds the `Option` type of the sampler's result.

## Model

| member | source | states |
|---|---|---|
| `Utils.RotateLeft` | tests/utils.py:56 | `days[today:] + days[:today]` has the input's length. Its first `|s| - k` entries are `s[k..]` in order, and the rest are `s[..k]` in order. |
| `Utils.RotateLeftPermutation` | tests/utils.py:56 | The rotation is a permutation of its input (equal multisets). |
| `Utils.RotateLeftInverse` | tests/utils.py:56 | Rotating by `k` and then by `|s| - k` gives back the input. |
| `Utils.DynamicDaysOrder` | tests/utils.py:53-56 | The order has exactly 7 entries and starts with today's abbreviation. Entry `i` is `Days[(today + i) % 7]`, the day `i` days after today. On Monday it is the base list unchanged. |
| `Utils.DynamicDaysOrderPermutation` | tests/utils.py:54-56 | The order is a permutation of the seven abbreviations. |
| `Utils.DaysDistinct` | tests/utils.py:54 | The seven base abbreviations are pairwise different. |
| `Utils.DynamicDaysOrderDistinct` | tests/utils.py:54-56 | No abbreviation appears twice in the order. |
| `Utils.DynamicDaysOrderMembers` | tests/utils.py:54-56 | A string appears in the order exactly when it is one of the seven abbreviations. |
| `Utils.DynamicDaysOrderPosition` | tests/utils.py:54-56 | Weekday `d` appears at column `(d - today) mod 7`, so every weekday appears. |
| `Utils.DynamicDaysOrderInjective` | tests/test_week_forecast.py:27-29 | Two weekdays with the same header order are the same weekday, so the header check pins down today. |
| `Utils.IsDigits` | tests/utils.py:49 | Definition of `isdigit()` over ASCII: non-empty and every character a digit. Its use in the exit test is characterised by `Utils.IsNonFloatIff`. |
| `Utils.IsNonFloat` | tests/utils.py:49-50 | Definition of the loop's exit test, `not s.replace('.', '').isdigit()`. Its character-wise characterisation is `Utils.IsNonFloatIff`. |
| `Utils.StripDots` | tests/utils.py:49 | `replace('.', '')` leaves no `'.'`. A character survives exactly when it was in the input and is not `'.'`. The result is no longer than the input. |
| `Utils.StripDotsAppend` | tests/utils.py:49 | Removing dots from a concatenation is the concatenation of the parts with dots removed. |
| `Utils.StripDotsNoDots` | tests/utils.py:49 | A string without dots is left unchanged. |
| `Utils.StripDotsAllDots` | tests/utils.py:49 | Nothing is left of a string made only of dots. |
| `Utils.StripDotsIdempotent` | tests/utils.py:49 | Removing dots twice is the same as removing them once. |
| `Utils.IsNonFloatIff` | tests/utils.py:49-50 | The loop accepts a candidate exactly when it is made only of dots (the empty string included) or holds a character that is neither a dot nor a digit. Both directions are proved. |
| `Utils.DotsOnlyAccepted` | tests/utils.py:49-50 | A candidate made only of dots is accepted. |
| `Utils.MultiDotDigitsRejected` | tests/utils.py:49-50 | `"1.2.3"` is rejected. |
| `Utils.SignedNumeralAccepted` | tests/utils.py:49-50 | A `+` or `-` followed only by digits and dots is accepted, although many such strings, such as `"-12.5"` or `"+000000045"`, read as numbers. |
| `Utils.InRangeNumeralAccepted` | tests/utils.py:46-50 | `"+000000045"` has 10 characters, all from the alphabet, and is accepted, although it reads as 45.0, inside both coordinate ranges. |
| `Utils.DrawLength` | tests/utils.py:48 | The number of characters `random.choices` picks for `k=length`: a natural number that is at least `length` and is either `0` or `length`, that is `max(length, 0)`. |
| `Utils.IsDraw` | tests/utils.py:48 | The assumed contract of the library call `random.choices(allowed_chars, k=length)`: it picks `DrawLength(length)` positions, and every pick is below `|AllowedChars|`. This is the only assumption `Utils.Candidates` and `Utils.CreateRandomNonFloat` make about the random input. |
| `Utils.Spell` | tests/utils.py:46-48 | The joined choices have one character per pick, and each character is from letters, punctuation and digits. |
| `Utils.Candidates` | tests/utils.py:47-48 | There is one candidate per draw. Each candidate has `max(length, 0)` characters, all from the alphabet. |
| `Utils.FirstNonFloat` | tests/utils.py:47-50 | The position of the first accepted candidate. It is accepted and every earlier candidate is rejected; `|cands|` means none is accepted. |
| `Utils.FirstNonFloatFound` | tests/utils.py:47-50 | The search stops inside the candidates exactly when some candidate is accepted. |
| `Utils.NonPositiveLengthAcceptedAtOnce` | tests/utils.py:45-50 | With `length <= 0`, the first candidate is `""` and is accepted at once. |
| `Utils.CreateRandomNonFloat` | tests/utils.py:45-50 | The method returns the first accepted candidate and reports how many candidates it built. The result is accepted, has `max(length, 0)` characters from the alphabet, and every earlier candidate was rejected. When no draw is accepted it returns `None` after building all of them. |

## Left out

- `CreateRandomNonFloat`: the source loops forever until a candidate is accepted. The model scans a finite sequence of draws and returns `None` if they run out, so it does not state that the loop ends with probability one.
- The random distribution of `random.choices` is not modelled. Which alphabet positions are drawn is an input; only their range and count are constrained.
- `IsDigits`: only the ASCII digits `0`-`9` are digits. Python's `isdigit` also accepts other Unicode digits, but the alphabet (`string.ascii_letters + string.punctuation + string.digits`) holds no others.
- The default argument `length=10` of `create_random_non_float` is not modelled; callers pass the length. Every caller in the suite passes 10.
- `datetime.now().weekday()` (the clock read) becomes the parameter `today`.
- `handle_exceptions` is not modelled. It only translates the browser driver's timeout and not-found exceptions into assertion failures.
- `create_random_valid_float` and `create_random_invalid_float` are not modelled. They do floating-point rounding of uniformly random values.
- The browser session fixtures (`tests/conftest.py`), the element locators (`tests/selectors.py`) and the test scenarios are not modelled. They drive an external browser and application whose behaviour is not part of this repository.
