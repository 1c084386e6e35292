# Face selection and blendshape files of the mesh visualiser

This project models two pieces of `VisualizeReconstructionResult` in
`visualize_mesh.cpp` of MultilinearReconstruction, the tool that renders a
reconstructed face mesh over its photograph.

**Face-index remapping.** The caller may pass a list of face indices of the
original quad mesh ("faces to render"). The mesh that is rendered has been
triangulated and then subdivided, so the tool moves the indices into that
mesh's index space. Triangulation turns quad `i` into triangles `2i, 2i+1`.
Each subdivision pass turns face `f` into `4f, 4f+1, 4f+2, 4f+3`. The tool
applies no pass when `no_subdivision` is given and one pass otherwise.

- `FaceRemap` (`face_remap.dfy`) states the convention as pure functions. Both
  steps are one operation, `Expand(s, m)`. It replaces every index `f`, in
  order, by the block `m*f .. m*f+m-1`. `Tri` is `Expand(_, 2)`, `Sub` is
  `Expand(_, 4)`, `Subs` iterates `Sub`, and `Remap(q, L)` is `Subs(Tri(q), L)`
  for any number of passes `L`. The tool's own choice is `Passes(noSubdivision)`.
  The lemmas prove what the result is: its length and every entry,
  the contiguous run one quad becomes, order, distinctness, membership and
  bounds. They also prove that the whole remapping is a single expansion by
  `2*4^L`.
- `FaceRemapImpl` (`face_remap_impl.dfy`) holds the loops as methods. They work
  over C++ `int` values, modelled as the newtype `Int32`, so every product is
  checked for overflow. Each method is proved equal to `Remap`. The
  precondition `NoOverflow` says that the final run of every selected quad
  fits in an `int`. The source leaves overflow undefined, so callers must
  meet it. `RemapBoundsNoOverflow` shows that quads in `[0, n)` meet it
  whenever `2n*4^L` is at most 2^31.

**Blendshape file names.** When no mesh file is given, the tool loads 47
blendshapes (slot 0 the neutral shape, slots 1..46 the deltas). Slot `i` is
read from `init_bs_path + "/" + prefix + to_string(i) + ".obj"`. The prefix
is `Binit_` when the `init` option is present and `B_` otherwise.
`BlendshapeFiles` (`blendshape_files.dfy`) models `to_string` on
non-negative numbers as `Decimal`. It proves that `Decimal` can be read back.
It proves that distinct slots get distinct file names. It also fills the
47 slots in a loop.

The code works on a list, not a set: it keeps order and duplicates.
`max_subdivisions` is 0 or 1 (visualize_mesh.cpp:158), so a negative number
of passes cannot arise. The model works on sequences and takes the number of
passes as a `nat`. Membership (`RemapMembership`) gives the set-level reading.

## Model

| member | source | states |
|---|---|---|
| `FaceRemap.TriSpec` | visualize_mesh.cpp:151-155 | triangulation makes a list exactly twice as long; entries `2k` and `2k+1` are `2*q[k]` and `2*q[k]+1` |
| `FaceRemap.SubSpec` | visualize_mesh.cpp:160-168 | one subdivision pass makes a list four times as long; entry `4k+r` is `4*h[k]+r` for `r` in 0..3 |
| `FaceRemap.ExpandAt` | visualize_mesh.cpp:152-166 | in the block expansion, child `r` of input `k` sits at position `k*m+r` and equals `m*s[k]+r` |
| `FaceRemap.ExpandLength` | visualize_mesh.cpp:152-166 | expanding by blocks of `m` multiplies the length by `m` |
| `FaceRemap.ExpandAppend` | visualize_mesh.cpp:152-166 | expanding a concatenation concatenates the expansions, so earlier inputs' children come first |
| `FaceRemap.ExpandCompose` | visualize_mesh.cpp:152-169 | expanding by `a` and then by `b` equals expanding by `a*b` |
| `FaceRemap.SubsIsExpand` | visualize_mesh.cpp:159-169 | `L` subdivision passes are one expansion by `4^L` |
| `FaceRemap.RemapIsExpand` | visualize_mesh.cpp:150-169 | triangulation followed by `L` passes is one expansion by `2*4^L` |
| `FaceRemap.RemapAt` | visualize_mesh.cpp:150-169 | the result has `2*4^L*|q|` entries; entry `k*2*4^L + r` is `2*4^L*q[k] + r` |
| `FaceRemap.RemapSourceLength` | visualize_mesh.cpp:158-169 | with the tool's pass count (0 if `no_subdivision`, else 1) the result has `2*|q|` or `8*|q|` entries |
| `FaceRemap.RemapEmpty` | visualize_mesh.cpp:150-169 | an empty selection gives an empty result for every number of passes |
| `FaceRemap.RemapSingle` | visualize_mesh.cpp:152-168 | one quad `i` becomes exactly the increasing contiguous run `2i*4^L, ..., (2i+2)*4^L - 1` |
| `FaceRemap.RemapAppend` | visualize_mesh.cpp:152-168 | the indices from an earlier part of the selection all come before those from a later part |
| `FaceRemap.RemapMembership` | visualize_mesh.cpp:152-168 | a final face is in the result if and only if it is one of the `2*4^L` descendants of a selected quad |
| `FaceRemap.RemapDistinct` | visualize_mesh.cpp:152-168 | the selection has no duplicates if and only if the result has none |
| `FaceRemap.RemapIncreasing` | visualize_mesh.cpp:152-168 | a strictly increasing selection gives a strictly increasing result |
| `FaceRemap.RemapBounds` | visualize_mesh.cpp:152-168 | quads in `[0, n)` give final faces in `[0, 2n*4^L)` |
| `FaceRemap.RemapBoundsNoOverflow` | visualize_mesh.cpp:153-166 | quads in `[0, n)` with `2n*4^L` at most 2^31 never overflow an `int` |
| `FaceRemap.NoOverflowEarlier` | visualize_mesh.cpp:159-169 | if the final runs fit in an `int`, the runs after any earlier pass fit too |
| `FaceRemap.RemapInInt32` | visualize_mesh.cpp:153-166 | under `NoOverflow`, every index computed after any pass up to `L` fits in an `int` |
| `FaceRemapImpl.RemapFaceIndices` | visualize_mesh.cpp:150-169 | the push-back loop and the `L` rebuild passes compute exactly `Remap(q, L)` in 32-bit arithmetic without overflow |
| `FaceRemapImpl.RemapSelectedFaces` | visualize_mesh.cpp:148-169 | the block with `max_subdivisions = no_subdivision ? 0 : 1` computes `Remap(q, Passes(no_subdivision))`, of length `2*|q|` or `8*|q|` |
| `FaceRemapImpl.TriangulateStep` | visualize_mesh.cpp:152-155 | quad `i` appends `2*q[i]`, `2*q[i]+1`, and both products fit in an `int` |
| `FaceRemapImpl.SubdivideStep` | visualize_mesh.cpp:161-167 | face `j` appends `4f .. 4f+3` to the next list, and all four fit in an `int` before the last pass |
| `FaceRemapImpl.ExpandSnoc` | visualize_mesh.cpp:152-167 | pushing one more index appends exactly its block of children |
| `BlendshapeFiles.Decimal` | visualize_mesh.cpp:109-111 | `to_string` of a non-negative number is a non-empty string of digits with no leading zero |
| `BlendshapeFiles.DigitChar` | visualize_mesh.cpp:109-111 | a digit value below 10 becomes a digit character whose value is that digit |
| `BlendshapeFiles.DecimalRoundTrip` | visualize_mesh.cpp:109-111 | reading back the decimal text of `n` gives `n` |
| `BlendshapeFiles.DecimalInjective` | visualize_mesh.cpp:109-111 | two numbers have the same decimal text if and only if they are equal |
| `BlendshapeFiles.FilenameInjective` | visualize_mesh.cpp:107-111 | two slots have the same file name if and only if they are the same slot |
| `BlendshapeFiles.BlendshapeFilenames` | visualize_mesh.cpp:104-111 | exactly 47 slots are filled; slot `i` gets `dir + "/" + ("Binit_" if "init" is an option else "B_") + decimal(i) + ".obj"`; all names differ |

## Left out

- Blendshape composition `verts += (B_j - B_0) * w_j` and `ComputeNormals` (visualize_mesh.cpp:115-123): double-precision matrix arithmetic in Eigen.
- Output-size scaling (visualize_mesh.cpp:89-94): a `double` scale truncated back to `int`.
- The OpenMP parallel loading of the slots (visualize_mesh.cpp:106): only the sequential slot-to-file-name mapping is modelled. Slots are disjoint, so order does not matter.
- Loading the meshes themselves (`LoadOBJMesh`), `LoadReconstructionResult`, `LoadIndices`, `LoadFloats`, image loading and saving, and `Write`: file I/O and library calls. The selected quad indices and the options map are parameters of the model.
- The choice between a given mesh file and the blendshapes (visualize_mesh.cpp:99-103): the file names are only used when no mesh file is given. That branch is plain I/O.
- The renderer set-up and `Render` (visualize_mesh.cpp:128-147, 170-176): calls into a renderer library that is not part of this model.
- Command-line parsing and the building of the options map in `main` (visualize_mesh.cpp:43-74, 179-204): argument plumbing. The model takes the map as given and tests only for the key "init".
- Overflow behaviour: `NoOverflow` is required by the methods because signed overflow of a C++ `int` is undefined. The model does not say what the tool does on larger indices.
- Topology checks between blendshapes and load-failure handling: the code performs neither.
