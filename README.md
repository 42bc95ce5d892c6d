# Theme and sidebar state of the legal-practice mobile client

This project models the two pieces of application state of the mobile client
for legal clients, cases, tracking tasks and judicial houses. Everything else
in the application is rendering.

- **Theme store** (`context/ThemeContext.tsx`, module `ThemeContext`). The
  provider holds one state cell, the theme preference `light`, `dark` or
  `system`. `toggleTheme` advances it along light → dark → system → light, and
  `setTheme` overwrites it. The effective `isDark` flag is derived from the
  preference and the colour scheme the host reports. That scheme is `dark`,
  `light`, `null` or `undefined` and is a parameter here. `colors` is one of two
  fixed twelve-colour palettes, picked by `isDark`. `useTheme` fails outside a
  provider.
- **Sidebar state** (`context/SidebarContext.tsx`, module `SidebarContext`).
  The provider holds `isExpanded` and the list `expandedSections`.
  `toggleSidebar` negates the flag. `toggleSection` filters out every occurrence
  of a listed section, or appends a section that is not listed. `useSidebar`
  fails outside a provider.

The state cells are fields of the classes `ThemeProvider` and
`SidebarProvider`, updated by methods. The pure parts are functions: the toggle
successor `Next`, `IsDark`, `Colors`, and the list update `Toggle` with its
filter `Without`. The `useTheme` and `useSidebar` guards take the enclosing
context as an `Option` and return a `Result` carrying the source's error message.
`Wrappers` holds the `Option` and `Result` datatypes.

## Model

| member | source | states |
|---|---|---|
| ThemeContext.Next | context/ThemeContext.tsx:72-77 | the toggle successor moves exactly one step forward along the cycle light, dark, system (position + 1 mod 3) and never leaves a mode in place |
| ThemeContext.ToggleCycleHasPeriodThree | context/ThemeContext.tsx:72-77 | three toggles return every mode to itself, and one or two toggles never do |
| ThemeContext.ToggleVisitsEveryMode | context/ThemeContext.tsx:72-77 | from any mode, at most two toggles reach any other mode |
| ThemeContext.IsDark | context/ThemeContext.tsx:65-68 | in system mode the theme is dark exactly when the host reports dark; with an explicit preference it is dark exactly when the preference is dark |
| ThemeContext.ExplicitModeIgnoresHost | context/ThemeContext.tsx:65-68 | with an explicit light or dark preference, the host scheme cannot change the dark flag |
| ThemeContext.MissingHostSchemeIsLight | context/ThemeContext.tsx:62-70 | in system mode a host that reports light, null or undefined gives the light flag and the light palette, without failing |
| ThemeContext.Colors | context/ThemeContext.tsx:70 | the palette is the dark palette exactly when the flag is set, and the light palette exactly when it is not |
| ThemeContext.ColorsDetermineDarkness | context/ThemeContext.tsx:21-49 | the two fixed palettes differ, so the palette alone determines the dark flag and vice versa |
| ThemeContext.ThemeProvider.constructor | context/ThemeContext.tsx:63 | a fresh provider starts in system mode |
| ThemeContext.ThemeProvider.SetTheme | context/ThemeContext.tsx:63 | setTheme makes the preference exactly the given mode and changes nothing else |
| ThemeContext.ThemeProvider.ToggleTheme | context/ThemeContext.tsx:72-78 | toggleTheme replaces the preference with its successor on the cycle |
| ThemeContext.ThemeProvider.Value | context/ThemeContext.tsx:61-85 | the published value carries the current preference, a dark flag that is set exactly for dark, or for system with a dark host, and the palette that matches the flag |
| ThemeContext.UseTheme | context/ThemeContext.tsx:87-92 | the guard succeeds exactly when a provider is present and then returns its value unchanged; otherwise it fails with the provider-missing message |
| SidebarContext.Without | context/SidebarContext.tsx:21 | filtering removes every occurrence of the section, keeps membership of every other name, and keeps the count of every other name |
| SidebarContext.WithoutAppend | context/SidebarContext.tsx:21 | filtering distributes over concatenation, so the remaining elements keep their relative order |
| SidebarContext.WithoutIsSubsequence | context/SidebarContext.tsx:21 | the filtered list is a subsequence of the original list |
| SidebarContext.WithoutAbsent | context/SidebarContext.tsx:21 | filtering out a name that is not listed returns the list unchanged |
| SidebarContext.WithoutKeepsNoDuplicates | context/SidebarContext.tsx:21 | filtering a duplicate-free list leaves it duplicate-free |
| SidebarContext.Toggle | context/SidebarContext.tsx:19-23 | membership of the toggled section flips and membership of every other name is unchanged; a listed section is filtered out, and an unlisted one is appended, so the old list is a prefix, the length grows by one and the section is last |
| SidebarContext.ToggleKeepsNoDuplicates | context/SidebarContext.tsx:19-23 | toggling a section keeps a duplicate-free list duplicate-free |
| SidebarContext.ToggleListedRemovesOne | context/SidebarContext.tsx:20-21 | in a duplicate-free list, toggling a listed section shortens the list by exactly one |
| SidebarContext.ToggleTwiceRestoresMembership | context/SidebarContext.tsx:18-24 | toggling the same section twice restores the set of listed names |
| SidebarContext.ToggleTwiceUnlistedRestoresList | context/SidebarContext.tsx:19-23 | toggling an unlisted section twice restores the list exactly |
| SidebarContext.ToggleTwiceListedMovesToEnd | context/SidebarContext.tsx:19-23 | toggling a listed section twice moves it to the end, behind the other names in their original order |
| SidebarContext.SidebarProvider.constructor | context/SidebarContext.tsx:13-14 | a fresh provider is expanded and lists clients then processes, with no duplicates |
| SidebarContext.SidebarProvider.ToggleSidebar | context/SidebarContext.tsx:16 | toggleSidebar negates the expanded flag, so two calls restore it, and leaves the section list unchanged |
| SidebarContext.SidebarProvider.ToggleSection | context/SidebarContext.tsx:18-24 | toggleSection replaces the list by its toggled version, leaves the expanded flag alone, and keeps the no-duplicates invariant |
| SidebarContext.UseSidebar | context/SidebarContext.tsx:38-43 | the guard succeeds exactly when a provider is present and then returns its value unchanged; otherwise it fails with the provider-missing message |

## Left out

- The host colour-scheme hook, React state cells, context creation and lookup are framework calls. The host scheme is a parameter, the state cells are class fields, and the context lookup is an `Option` argument.
- The context values do not carry the `setTheme`, `toggleTheme`, `toggleSidebar` and `toggleSection` callbacks. These are the provider's methods instead.
- React's functional-update form of the state setters is not modelled. The provider applies each update to its current state, one event at a time.
- Colour values are opaque strings. The opacity-suffix concatenation in the sidebar component is presentation and is not modelled.
- The screens under `app/(tabs)/` filter mock records by case-insensitive substring and by status category. These filters are screen code outside the two contexts. They need lower-casing of arbitrary text, which the model has no counterpart for. They are not part of this model.
- Cards, header, sidebar rendering, the theme toggle button and the application layout are rendering and framework bootstrapping. This includes the menu-visibility test `!isExpanded || expandedSections.includes(...)` and the status-to-colour lookups. The record declarations in `types/index.ts` carry no behaviour.
