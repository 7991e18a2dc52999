/** Values shared by the capture tool, the dataset reader and the live demo. */
module Common {

  datatype Option<T> = None | Some(value: T)

  /** A rectangle returned by the face detector: top-left corner (x, y), width w, height h. */
  datatype Box = Box(x: int, y: int, w: int, h: int)

  /** The area `w*h` used to rank detected faces. */
  function Area(b: Box): int
  {
    b.w * b.h
  }

  /** `cv2.waitKey(1) & 0xFF`: the low byte of the key pressed during a frame. */
  type KeyCode = k: int | 0 <= k < 256

  /** `ord('q')`: the key that ends the capture tool and the live demo. */
  const QuitKey: KeyCode := 113
}
