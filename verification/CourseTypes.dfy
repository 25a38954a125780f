/** Course life-cycle states (src/courses/entities/course-status.enum.ts). */
module CourseTypes {
  datatype CourseStatus = Draft | PendingReview | ChangesRequested | Published | Rejected | Archived
}
