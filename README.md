# Electronics_World storefront: view-state model

This project models the four pieces of client-side behaviour in the Electronics_World
storefront. The rest of the front end is static markup.

- **Product detail page** (`ProductDetailPage`). The page keeps three pieces of view state:
  the selected image, the quantity and the selected variant. The `ProductDetailView` class
  holds them, and its methods are the page's handlers. Thumbnail clicks and variant-button
  clicks have their own methods. Those methods model what the markup lets through: only
  thumbnail indices reach the image handler, and a disabled variant button fires nothing.
  The displayed price, the "% OFF" badge and the enabling of "Add to Cart" are functions of
  the product record. A sequence of quantity inputs is modelled by `QuantityAfter`.
- **Testimonial carousel** (`TestimonialsSection`). The `TestimonialRotator` class keeps the
  index of the testimonial on show. The interval tick advances it cyclically, and a dot click
  sets it. `Ticks` and `After` give the index after a run of ticks, or after any mix of ticks
  and dot clicks.
- **Stat counter** (`StatsSection`). The `Counter` class has the per-tick step (`value / 40`),
  the running total, the displayed count and whether the interval is still set.
  `UpdateCounter` is the timer callback. `RunInterval` fires the interval until the callback
  clears it. `Run` gives the state after k timer periods.
- **Navigation bar** (`Navbar`). The `NavbarState` class has the scrolled flag and the
  mobile-menu flag. `HandleScroll` and `ToggleMobileMenu` are the two handlers. `NavAfter`
  gives the state after any sequence of scroll events and menu clicks.

Every class method states the new state as a step function of the old state. The lemmas
beside each class prove what the component promises about those functions.

Prices, scroll offsets and the counter's running total are Dafny `real`s. That is exact
arithmetic, where the browser uses IEEE doubles.

A few things the code does, which the model keeps:
- The image and variant handlers (`ProductDetailPage.tsx:114-116`, `:135-137`) set the
  index unconditionally. They do not reject out-of-range or unavailable indices. Only the
  markup keeps the index in range.
- "Add to Cart" is enabled by `inStock` alone (`ProductDetailPage.tsx:266`). Variant
  availability plays no part.
- The page has no product lookup and no not-found path. It renders one fixed record.
- The scrolled flag is recomputed from each scroll offset on its own, against a strict
  threshold of 10. For the offsets 0, 5, 15, 8, 2 it is not-scrolled, not-scrolled, scrolled,
  not-scrolled, not-scrolled (`Navbar.SampleScrollTrace`).

## Model

| member | source | states |
|---|---|---|
| `ProductDetailPage.Round` | client/src/pages/ProductDetailPage.tsx:204 | `Math.round` gives the integer within one half of x; a value exactly halfway rounds up. |
| `ProductDetailPage.DiscountShown` | client/src/pages/ProductDetailPage.tsx:199 | The discount branch is taken only when there is a discounted price, and always when it is positive (a truthy number). |
| `ProductDetailPage.DisplayedPrice` | client/src/pages/ProductDetailPage.tsx:199-209 | The price shown is the base price or the discounted price. It differs from the base price only when the discount branch is taken. |
| `ProductDetailPage.Discount` | client/src/pages/ProductDetailPage.tsx:204 | There is a badge exactly when the discount is shown. The badge is not finite exactly when the base price is 0. Otherwise it is the saved percentage rounded to the nearest integer. |
| `ProductDetailPage.NextQuantity` | client/src/pages/ProductDetailPage.tsx:118-133 | One input leaves the quantity unchanged, adds 1, subtracts 1 from a quantity above 1, or sets the positive parsed value. A quantity of 1 or more stays at 1 or more. |
| `ProductDetailPage.DisplayedPriceBounds` | client/src/pages/ProductDetailPage.tsx:199-209 | For a well-formed record (0 <= discounted <= price), the displayed price is between 0 and the base price. It is below the base price exactly when a shown discount is below it, and then it equals the discounted price. |
| `ProductDetailPage.FalsyDiscountIgnored` | client/src/pages/ProductDetailPage.tsx:199-209 | A missing discounted price, or one of 0 (falsy), shows the base price and no badge. |
| `ProductDetailPage.DiscountPercentInRange` | client/src/pages/ProductDetailPage.tsx:199-206 | The badge appears exactly when the discount is shown. For a well-formed record it is a percentage between 0 and 100, within one half of the saved fraction of the base price. |
| `ProductDetailPage.SampleProductDiscount` | client/src/pages/ProductDetailPage.tsx:45-46 | The page's record, 12.99 reduced to 9.99, shows 9.99 and a badge of 23% (the badge is at line 204). |
| `ProductDetailPage.AddToCartIgnoresVariants` | client/src/pages/ProductDetailPage.tsx:266 | Enabling "Add to Cart" does not depend on the variants. A product out of stock never enables it. |
| `ProductDetailPage.QuantityAfter` | client/src/pages/ProductDetailPage.tsx:118-133 | Under any sequence of typed values, "+" and "-", a quantity that starts at 1 or more stays at 1 or more. |
| `ProductDetailPage.TypedQuantity` | client/src/pages/ProductDetailPage.tsx:118-123 | A positive parsed value replaces the quantity. Zero, a negative value or NaN leaves it unchanged. |
| `ProductDetailPage.StepQuantity` | client/src/pages/ProductDetailPage.tsx:125-133 | "-" is a no-op at 1 and otherwise subtracts exactly 1. "+" adds exactly 1, and "-" undoes it. |
| `ProductDetailPage.IncreasesAdd` | client/src/pages/ProductDetailPage.tsx:125-127 | k presses of "+" add exactly k. There is no upper bound. |
| `ProductDetailPage.DecreasesStopAtOne` | client/src/pages/ProductDetailPage.tsx:129-133 | k presses of "-" subtract k but stop at 1. |
| `ProductDetailPage.ProductDetailView.constructor` | client/src/pages/ProductDetailPage.tsx:109-111 | The initial state is image 0, quantity 1 and variant 0, and it satisfies the view invariant. |
| `ProductDetailPage.ProductDetailView.CurrentImage` | client/src/pages/ProductDetailPage.tsx:160-162 | In every valid state of a product with images, the large image's access is in bounds. |
| `ProductDetailPage.ProductDetailView.HandleImageSelect` | client/src/pages/ProductDetailPage.tsx:114-116 | Sets the selected image to the given index, unconditionally. The other state is unchanged. |
| `ProductDetailPage.ProductDetailView.HandleVariantSelect` | client/src/pages/ProductDetailPage.tsx:135-137 | Sets the selected variant to the given index, unconditionally. The other state is unchanged. |
| `ProductDetailPage.ProductDetailView.HandleQuantityChange` | client/src/pages/ProductDetailPage.tsx:118-123 | The new quantity is the typed-input step of the old one. The invariant (quantity >= 1) is kept. |
| `ProductDetailPage.ProductDetailView.IncreaseQuantity` | client/src/pages/ProductDetailPage.tsx:125-127 | The new quantity is the old quantity plus one, and the invariant is kept. |
| `ProductDetailPage.ProductDetailView.DecreaseQuantity` | client/src/pages/ProductDetailPage.tsx:129-133 | The new quantity is the old one minus one when above 1, and unchanged otherwise. The invariant is kept. |
| `ProductDetailPage.ProductDetailView.ClickThumbnail` | client/src/pages/ProductDetailPage.tsx:167-171 | A thumbnail click selects that thumbnail's index, so the selected image stays a valid position. |
| `ProductDetailPage.ProductDetailView.ClickVariant` | client/src/pages/ProductDetailPage.tsx:216-220 | A click on an available variant selects it. A click on an unavailable (disabled) variant changes nothing. The selected variant stays 0 or an available one. |
| `TestimonialsSection.NextIndex` | client/src/components/TestimonialsSection.tsx:51 | A tick gives an index in range: the next index, or 0 after the last. |
| `TestimonialsSection.Ticks` | client/src/components/TestimonialsSection.tsx:51 | Any number of ticks from an index in range gives an index in range. |
| `TestimonialsSection.Step` | client/src/components/TestimonialsSection.tsx:50-52 | One tick or dot click gives an index in range, and a dot click (the handler at line 108) gives exactly that dot's index. |
| `TestimonialsSection.TicksRotate` | client/src/components/TestimonialsSection.tsx:50-52 | Up to a full cycle, k ticks move the index k places forward and wrap at most once. |
| `TestimonialsSection.TicksCompose` | client/src/components/TestimonialsSection.tsx:50-52 | a ticks followed by b ticks equal a + b ticks. |
| `TestimonialsSection.FullCycle` | client/src/components/TestimonialsSection.tsx:51 | After as many ticks as there are testimonials, the index is back at its start. |
| `TestimonialsSection.Periodic` | client/src/components/TestimonialsSection.tsx:51 | The index after k + n ticks equals the index after k ticks, for a list of n testimonials. |
| `TestimonialsSection.FourTestimonialsWrap` | client/src/components/TestimonialsSection.tsx:11-52 | With the four shipped testimonials and a start at 0, 3 ticks give index 3 and 4 ticks give 0. |
| `TestimonialsSection.After` | client/src/components/TestimonialsSection.tsx:85-108 | Under any mix of ticks and dot clicks the index stays in range, so the displayed testimonial's access is in bounds. |
| `TestimonialsSection.LastDotWins` | client/src/components/TestimonialsSection.tsx:102-108 | After any history, a dot click leaves the index at that dot's position. |
| `TestimonialsSection.TestimonialRotator.constructor` | client/src/components/TestimonialsSection.tsx:47 | The index starts at 0, which is in range. |
| `TestimonialsSection.TestimonialRotator.Shown` | client/src/components/TestimonialsSection.tsx:85-94 | The testimonial on show is one of the list's entries. |
| `TestimonialsSection.TestimonialRotator.Tick` | client/src/components/TestimonialsSection.tsx:50-52 | The new index is the cyclic successor of the old one, and it stays in range. |
| `TestimonialsSection.TestimonialRotator.ClickDot` | client/src/components/TestimonialsSection.tsx:102-108 | The new index is exactly the clicked dot's index, whatever it was before. |
| `StatsSection.Increment` | client/src/components/StatsSection.tsx:40-41 | 40 steps add up exactly to the value. A non-negative value gives a non-negative step. |
| `StatsSection.Finished` | client/src/components/StatsSection.tsx:47-54 | The terminal state: the timer is cleared, the total is the value, and the count is the value rounded down. |
| `StatsSection.Step` | client/src/components/StatsSection.tsx:47-54 | One callback: the count is the new total rounded down. The timer stays live exactly when the added step leaves the total below the value, and otherwise the state is `Finished`. A non-negative step keeps a total within [0, value] there and never lowers it. |
| `StatsSection.Run` | client/src/components/StatsSection.tsx:45-53 | After any number of periods the count is the total rounded down. For a non-negative value the total is between 0 and the value. Once stopped, the state is the value itself. |
| `StatsSection.LiveStep` | client/src/components/StatsSection.tsx:47-54 | A period taken while the timer is live after k - 1 of 40 steps keeps it live and adds exactly one step. |
| `StatsSection.RunPositive` | client/src/components/StatsSection.tsx:47-53 | For a positive value, the timer is still live after k < 40 periods and the total is exactly k steps. |
| `StatsSection.Terminates` | client/src/components/StatsSection.tsx:41-51 | For every value the counter reaches its terminal state (total = value, timer cleared) within 40 periods. A positive value takes exactly 40 periods; a value of 0 or below takes the first period. |
| `StatsSection.ZeroFinishesAtOnce` | client/src/components/StatsSection.tsx:47-53 | A value of 0 finishes on the first tick and shows 0. |
| `StatsSection.ShippedStatsEndOnValue` | client/src/components/StatsSection.tsx:11-36 | The four shipped stats (15, 500, 1000, 99) end by showing exactly their values. |
| `StatsSection.CountMonotone` | client/src/components/StatsSection.tsx:47-53 | For a non-negative value the displayed count never decreases from one period to the next, and it stays between 0 and the value. |
| `StatsSection.Counter.constructor` | client/src/components/StatsSection.tsx:39-45 | The count and running total start at 0, the step is value / 40, and the interval is live. |
| `StatsSection.Counter.UpdateCounter` | client/src/components/StatsSection.tsx:47-54 | One callback: add the step, clamp to the value and clear the timer once reached, and show the floor. The new state is `Step` of the old one. |
| `StatsSection.Counter.RunInterval` | client/src/components/StatsSection.tsx:56 | Firing the interval until it is cleared ends with the value on display, after at most 40 periods. |
| `Navbar.NextNav` | client/src/components/Navbar.tsx:8-14 | A scroll sets the scrolled flag to (offset > 10) and keeps the menu flag. A click (the handler at line 88) flips the menu flag and keeps the scrolled flag. |
| `Navbar.NavAfter` | client/src/components/Navbar.tsx:8-14 | Scrolls alone never change the menu flag. Clicks alone (line 88) never change the scrolled flag. |
| `Navbar.MenuOpenAfter` | client/src/components/Navbar.tsx:131 | From the initial state, the menu is open, and its panel rendered, exactly after an odd number of menu clicks (each one the handler at line 88). |
| `Navbar.EventsTouchOneFlag` | client/src/components/Navbar.tsx:8-14 | A scroll sets the scrolled flag iff its offset is above 10 (10 itself gives false) and never touches the menu flag. A click flips only the menu flag, and two clicks restore it. |
| `Navbar.LastOffset` | client/src/components/Navbar.tsx:8-14 | The offset returned is that of a scroll event followed only by menu clicks, i.e. the most recent scroll. With no scroll event it returns None and every event is a click. |
| `Navbar.ScrolledFollowsLastOffset` | client/src/components/Navbar.tsx:8-14 | After any history the scrolled flag is determined by the most recent scroll offset alone. |
| `Navbar.MenuFollowsClickParity` | client/src/components/Navbar.tsx:88 | The menu flag is the initial flag flipped once per menu click. Scroll events play no part. |
| `Navbar.ScrolledTrace` | client/src/components/Navbar.tsx:8-14 | Along a sequence of scroll events, the flag after each one is whether that offset exceeds 10. |
| `Navbar.SampleScrollTrace` | client/src/components/Navbar.tsx:8-14 | Offsets 0, 5, 15, 8, 2 give false, false, true, false, false. |
| `Navbar.NavbarState.constructor` | client/src/components/Navbar.tsx:4-5 | Both flags start false. |
| `Navbar.NavbarState.HandleScroll` | client/src/components/Navbar.tsx:8-14 | The scrolled flag becomes (offset > 10). The menu flag is unchanged. |
| `Navbar.NavbarState.ToggleMobileMenu` | client/src/components/Navbar.tsx:88 | The menu flag is negated. The scrolled flag is unchanged. |

## Left out

- JSX markup, CSS classes, SVG icons and static copy are presentation without behaviour. This includes the stock label, the breadcrumbs, the specifications table and the downloads.
- The timer and listener plumbing is browser machinery. That covers `setInterval`/`clearInterval` and `addEventListener`/`removeEventListener`, with their cleanup on unmount. Ticks, scroll events and clicks are explicit method calls. Clearing the counter's interval is the `running` flag going false, after which no tick is modelled.
- The `alert` in `addToCart` is UI output. Only the button's enabled/disabled condition is modelled.
- `parseInt` is a library call. The quantity handler receives an already-parsed optional integer, where None stands for NaN.
- IEEE-754 rounding is not modelled; prices, the discount formula and the counter's total are exact reals. Floating-point results can differ by one percent in the badge or by one tick in the counter at the edges.
- A discounted price that is NaN is falsy in the page. The model has no NaN price.
- `useParams` is read but unused, so routing is left out.
- The product record, the related-products list and the testimonial texts are static data. The models take the product and the testimonial list as parameters. Lemmas pin down the facts the behaviour depends on: the 12.99/9.99 prices, the four testimonials and the four stat values.
- The catalogue components, the hero, the call-to-action section, the home page, the app shell and the server are not part of this model. They are composition, markup, or a database connection with logging.
- `ProductDetailPage.ProductDetailView.DecreaseQuantity`: each event is assumed to see the state left by the previous one. The source tests the rendered `quantity` but subtracts from the pending value (`prev - 1`). If two "-" clicks were batched into one render at quantity 2, the source would reach 0. React renders between discrete click events, and the model does not represent batching.
- `ProductDetailPage.ProductDetailView.CurrentImage`: a product with no images is outside what the page handles. Its first render would read `images[0]` of an empty list. The model only reads the large image when the list is non-empty.
- `TestimonialsSection.TestimonialRotator.constructor`: the list must be non-empty. The shipped list has four entries, and an empty one would give a NaN index.
- The mobile menu panel (`Navbar.tsx:131`) is rendered exactly when `isMobileMenuOpen` is set. The model keeps the flag, and the panel's markup is presentation.
- `Navbar.NavbarState.ToggleMobileMenu`: each click is assumed to see the state left by the previous one. The handler negates the rendered value (`Navbar.tsx:88`) rather than the pending one. If two clicks were batched into one render, both would set the same value and the second would not restore the menu. React renders between discrete click events, and the model does not represent batching.
- `ProductDetailPage.AddToCartEnabled` is the button's `disabled={!productData.inStock}` test itself (`ProductDetailPage.tsx:266`), negated; what is proved about it is in `AddToCartIgnoresVariants`.
- `ProductDetailPage.ProductDetailView.IncreaseQuantity`: the quantity is an unbounded integer. The page keeps it as a JavaScript number, so from 2^53 up (a typed value such as 9007199254740993 already parses to 2^53) its `prev + 1` and `prev - 1` no longer step by exactly one. `StepQuantity`, `IncreasesAdd` and `DecreasesStopAtOne` hold for the integer model only.
